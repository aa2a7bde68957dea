/**
 * The headers sync object, updated in place header by header.
 *
 * Every method leaves the object in the state that module `HeadersSync` computes for it.
 */
module HeadersSyncStates {
  import opened HeadersSync

  class HeadersSyncState {
    const p: Params
    var phase: Phase
    var work: nat
    var commitments: seq<bool>
    var last: Header
    var height: int
    var buffer: seq<Compressed>
    var lastHeight: int
    var lastHash: nat
    var firstPrev: nat
    var redoWork: nat
    var all: bool

    function State(): Sync
      reads this
    {
      Sync(phase, work, commitments, last, height, buffer, lastHeight, lastHash, firstPrev, redoWork, all)
    }

    constructor (params: Params)
      requires params.Valid()
      ensures p == params && State() == Initial(params)
    {
      p := params;
      phase, work, commitments, last, height := Presync, params.startWork, [], params.start, params.startHeight;
      buffer, lastHeight, lastHash, firstPrev, redoWork, all := [], 0, NULL_HASH, NULL_HASH, 0, false;
    }

    method Finalize()
      modifies this
      ensures State() == Finalized(old(State()))
    {
      commitments := [];
      last := NullHeader();
      buffer := [];
      lastHash := NULL_HASH;
      firstPrev := NULL_HASH;
      all := false;
      height := 0;
      phase := Final;
    }

    /** First phase, one header. */
    method ValidateAndProcessSingleHeader(current: Header) returns (ok: bool)
      requires p.Valid()
      modifies this
      ensures Outcome(ok, State()) == PresyncHeader(p, old(State()), current)
    {
      if phase != Presync {
        return false;
      }
      var next := height + 1;
      if !p.rules.permitted(next, last.bits, current.bits) {
        return false;
      }
      if CommitsAt(p, next) {
        commitments := commitments + [p.rules.bit(p.rules.hash(current))];
        if |commitments| > p.maxCommitments {
          return false;
        }
      }
      work := AddWork(work, p.rules.proof(current.bits));
      last := current;
      height := next;
      ok := true;
    }

    /** First phase, one message. */
    method ValidateAndStoreHeadersCommitments(headers: seq<Header>) returns (ok: bool)
      requires p.Valid()
      modifies this
      ensures Outcome(ok, State()) == PresyncMessage(p, old(State()), headers)
    {
      hide PresyncHeader;
      if headers == [] {
        return true;
      }
      if phase != Presync || headers[0].prev != p.rules.hash(last) {
        return false;
      }
      var i := 0;
      assert headers[0..] == headers;
      while i < |headers|
        invariant 0 <= i <= |headers|
        invariant PresyncHeaders(p, State(), headers[i..]) == PresyncHeaders(p, old(State()), headers)
      {
        ghost var s := State();
        assert headers[i..][0] == headers[i] && headers[i..][1..] == headers[i + 1..];
        var good := ValidateAndProcessSingleHeader(headers[i]);
        if !good {
          return false;
        }
        i := i + 1;
      }
      if work >= p.minimumWork {
        buffer := [];
        lastHeight := p.startHeight;
        firstPrev := p.rules.hash(p.start);
        lastHash := p.rules.hash(p.start);
        redoWork := p.startWork;
        phase := Redownload;
      }
      ok := true;
    }

    /** Second phase, one header. */
    method ValidateAndStoreRedownloadedHeader(header: Header) returns (ok: bool)
      requires p.Valid()
      modifies this
      ensures Outcome(ok, State()) == RedownloadHeader(p, old(State()), header)
    {
      if phase != Redownload {
        return false;
      }
      var next := lastHeight + 1;
      if header.prev != lastHash {
        return false;
      }
      var previousBits := p.start.bits;
      if buffer != [] {
        previousBits := buffer[|buffer| - 1].bits;
      }
      if !p.rules.permitted(next, previousBits, header.bits) {
        return false;
      }
      redoWork := AddWork(redoWork, p.rules.proof(header.bits));
      if redoWork >= p.minimumWork {
        all := true;
      }
      if !all && CommitsAt(p, next) {
        if |commitments| == 0 {
          return false;
        }
        var commitment := p.rules.bit(p.rules.hash(header));
        var expected := commitments[0];
        commitments := commitments[1..];
        if commitment != expected {
          return false;
        }
      }
      buffer := buffer + [Compress(header)];
      lastHeight := next;
      lastHash := p.rules.hash(header);
      ok := true;
    }

    /** The headers that may now be accepted. */
    method PopHeadersReadyForAcceptance() returns (ret: seq<Header>)
      modifies this
      ensures (ret, State()) == Release(p, old(State()))
    {
      ret := [];
      if phase != Redownload {
        return;
      }
      while |buffer| > p.bufferSize || (|buffer| > 0 && all)
        invariant phase == Redownload
        invariant ret + Release(p, State()).0 == Release(p, old(State())).0
        invariant Release(p, State()).1 == Release(p, old(State())).1
        decreases |buffer|
      {
        ghost var s := State();
        var front := buffer[0].Full(firstPrev);
        ret := ret + [front];
        buffer := buffer[1..];
        firstPrev := p.rules.hash(front);
        assert State() == ReleaseOne(p, s);
      }
      assert Release(p, State()) == ([], State()) && ret + [] == ret;
    }

    /** One message from the peer. */
    method ProcessNextHeaders(received: seq<Header>, full: bool) returns (ret: Result)
      requires p.Valid()
      modifies this
      ensures (ret, State()) == Process(p, old(State()), received, full)
    {
      hide PresyncMessage, RedownloadHeader, Release;
      ret := Result([], false, false);
      if received == [] || phase == Final {
        return;
      }
      if phase == Presync {
        var success := ValidateAndStoreHeadersCommitments(received);
        ret := Result([], success, success && (full || phase == Redownload));
      } else {
        var success := true;
        var i := 0;
        assert received[0..] == received;
        while i < |received| && success
          invariant 0 <= i <= |received|
          invariant success ==> RedownloadHeaders(p, State(), received[i..]) == RedownloadHeaders(p, old(State()), received)
          invariant !success ==> RedownloadHeaders(p, old(State()), received) == Outcome(false, State())
        {
          assert received[i..][0] == received[i] && received[i..][1..] == received[i + 1..];
          success := ValidateAndStoreRedownloadedHeader(received[i]);
          i := i + 1;
        }
        if success {
          var headers := PopHeadersReadyForAcceptance();
          ret := Result(headers, true, !(buffer == [] && all) && full);
        }
      }
      if !(ret.success && ret.requestMore) {
        Finalize();
      }
    }
  }
}
