/**
 * The check queue: a master hands out verifications in rounds and helps worker threads with them.
 *
 * One state is the memory shared under the mutex and where each thread stands.  A step is one
 * critical section, one verification outside the lock, or a wake-up.  A schedule is any sequence of
 * enabled steps, so what is proved of schedules holds of every interleaving of any number of workers.
 */
module CheckQueues {
  import opened Wrappers
  import opened Arithmetic

  /** A verification: `outcome` is the error it reports, if any. */
  datatype Check = Check(id: nat, outcome: Option<int>) {
    predicate Fails() {
      outcome.Some?
    }
  }

  /** Where a thread stands: outside the loop; about to take the lock with a batch it has dealt with;
      checking a batch; waiting; woken and about to take the lock again; or, only in the middle of a
      step, holding the lock.  `local` is its own result variable, which outlives batches and rounds. */
  datatype Thread =
    | Outside
    | Ready(held: seq<Check>, local: Option<int>)
    | Working(held: seq<Check>, pos: nat, local: Option<int>)
    | Waiting(local: Option<int>)
    | Woken(local: Option<int>)
    | Locked(local: Option<int>)

  /** What the master's caller sees. */
  datatype Event = Added(checks: seq<Check>) | Returned(result: Option<int>)

  datatype State = State(
    batchSize: nat,
    queue: seq<Check>, nTodo: int, nIdle: int, nTotal: int, result: Option<int>,
    threads: seq<Thread>,
    events: seq<Event>)

  const MASTER: nat := 0

  datatype Step =
    | Add(checks: seq<Check>)
    | Complete
    | Lock(t: nat)
    | RunCheck(t: nat)
    | Wake(t: nat)

  // ---------------------------------------------------------------------------------------------
  // The protocol

  function Init(workers: nat, batchSize: nat): State {
    State(batchSize, [], 0, 0, 0, None, [Outside] + seq(workers, _ => Ready([], None)), [])
  }

  predicate Enabled(s: State, step: Step) {
    && |s.threads| > 0
    && match step
       case Add(_) => s.threads[MASTER].Outside?
       case Complete => s.threads[MASTER].Outside?
       case Lock(t) => t < |s.threads| && (s.threads[t].Ready? || s.threads[t].Woken?)
       case RunCheck(t) => t < |s.threads| && s.threads[t].Working? && s.threads[t].pos < |s.threads[t].held|
       case Wake(t) => t < |s.threads| && s.threads[t].Waiting?
  }

  function With(s: State, t: nat, thread: Thread): State
    requires t < |s.threads|
  {
    s.(threads := s.threads[t := thread])
  }

  datatype Kind = Idle | Joined

  /** Threads that wait or have not yet taken the lock again, and threads in the pool. */
  predicate Is(kind: Kind, thread: Thread) {
    match kind
    case Idle => thread.Waiting? || thread.Woken?
    case Joined => !thread.Outside? && !(thread.Ready? && thread.held == [])
  }

  function Count(kind: Kind, threads: seq<Thread>): nat {
    if threads == [] then 0
    else Count(kind, threads[..|threads| - 1]) + if Is(kind, threads[|threads| - 1]) then 1 else 0
  }

  lemma {:induction false} CountUpdate(kind: Kind, threads: seq<Thread>, t: nat, thread: Thread)
    requires t < |threads|
    ensures Count(kind, threads[t := thread]) ==
            Count(kind, threads) - (if Is(kind, threads[t]) then 1 else 0) + (if Is(kind, thread) then 1 else 0)
    ensures Is(kind, threads[t]) ==> Count(kind, threads) > 0
  {
    var n := |threads| - 1;
    if t < n {
      CountUpdate(kind, threads[..n], t, thread);
      assert threads[t := thread][..n] == threads[..n][t := thread];
    } else {
      assert threads[t := thread][..n] == threads[..n];
    }
  }

  /** The two counters of threads are right. */
  predicate Counted(s: State) {
    s.nIdle == Count(Idle, s.threads) && s.nTotal == Count(Joined, s.threads)
  }

  /** How many checks a thread takes at a time. */
  function BatchSize(s: State): (n: int)
    requires s.nTotal + s.nIdle + 1 > 0 && s.queue != []
    ensures 1 <= n <= |s.queue|
  {
    QuotientBelow(|s.queue|, s.nTotal + s.nIdle + 1);
    Max(1, Min(s.batchSize, |s.queue| / (s.nTotal + s.nIdle + 1)))
  }

  /** Thread `t` takes the lock: it reports the batch it held, or joins the pool on its first time
      through, or comes back from waiting. */
  function Acquire(s: State, t: nat): State
    requires Enabled(s, Lock(t))
  {
    match s.threads[t]
    case Woken(local) => With(s, t, Locked(local)).(nIdle := s.nIdle - 1)
    case Ready(held, local) =>
      if held == [] then With(s, t, Locked(local)).(nTotal := s.nTotal + 1)
      else
        var swap := local.Some? && s.result.None?;
        var r := With(s, t, Locked(if swap then None else local))
                 .(result := if swap then local else s.result, nTodo := s.nTodo - |held|);
        if r.nTodo == 0 && t != MASTER then NotifyMaster(r) else r
  }

  function NotifyMaster(s: State): State
    requires |s.threads| > 0
  {
    if s.threads[MASTER].Waiting? then With(s, MASTER, Woken(s.threads[MASTER].local)) else s
  }

  lemma AcquireCounted(s: State, t: nat)
    requires Counted(s) && Enabled(s, Lock(t))
    ensures Counted(Acquire(s, t)) && Acquire(s, t).threads[t].Locked?
  {
    var local := Acquire(s, t).threads[t].local;
    CountUpdate(Idle, s.threads, t, Locked(local));
    CountUpdate(Joined, s.threads, t, Locked(local));
    var m := s.threads[t := Locked(local)];
    if m[MASTER].Waiting? {
      CountUpdate(Idle, m, MASTER, Woken(m[MASTER].local));
      CountUpdate(Joined, m, MASTER, Woken(m[MASTER].local));
    }
  }

  /** With the lock held: return, wait, or take a batch from the back of the queue. */
  function TakeWork(s: State, t: nat): State
    requires t < |s.threads| && s.threads[t].Locked? && s.nTotal + s.nIdle + 1 > 0
  {
    var local := s.threads[t].local;
    if s.queue == [] then
      if t == MASTER && s.nTodo == 0 then
        With(s, t, Outside).(nTotal := s.nTotal - 1, result := None, events := s.events + [Returned(s.result)])
      else
        With(s, t, Waiting(local)).(nIdle := s.nIdle + 1)
    else
      var rest := |s.queue| - BatchSize(s);
      var held := s.queue[rest..];
      With(s, t, if s.result.None? then Working(held, 0, local) else Ready(held, local)).(queue := s.queue[..rest])
  }

  function Next(s: State, step: Step): State
    requires Enabled(s, step) && Counted(s)
  {
    match step
    case Add(checks) =>
      s.(queue := s.queue + checks, nTodo := s.nTodo + |checks|, events := s.events + [Added(checks)])
    case Complete => With(s, MASTER, Ready([], None))
    case Lock(t) => AcquireCounted(s, t); TakeWork(Acquire(s, t), t)
    case RunCheck(t) =>
      var Working(held, pos, _) := s.threads[t];
      var local := held[pos].outcome;
      With(s, t, if local.Some? || pos + 1 == |held| then Ready(held, local) else Working(held, pos + 1, local))
    case Wake(t) => With(s, t, Woken(s.threads[t].local))
  }

  // ---------------------------------------------------------------------------------------------
  // The invariant

  /** The checks a thread has taken and not yet reported. */
  function Held(thread: Thread): seq<Check> {
    if thread.Ready? || thread.Working? then thread.held else []
  }

  function Copies(checks: seq<Check>, c: Check): nat {
    multiset(checks)[c]
  }

  /** How many checks are in the threads' hands, and how many of them are copies of `c`. */
  function InFlight(threads: seq<Thread>): nat {
    if threads == [] then 0
    else InFlight(threads[..|threads| - 1]) + |Held(threads[|threads| - 1])|
  }

  function InFlightOf(threads: seq<Thread>, c: Check): nat {
    if threads == [] then 0
    else InFlightOf(threads[..|threads| - 1], c) + Copies(Held(threads[|threads| - 1]), c)
  }

  /** Copies of `c` queued or in flight. */
  function Pending(s: State, c: Check): nat {
    Copies(s.queue, c) + InFlightOf(s.threads, c)
  }

  /** Copies of `c` added since the master last returned. */
  function Round(events: seq<Event>, c: Check): nat {
    if events == [] then 0
    else
      match events[|events| - 1]
      case Added(checks) => Round(events[..|events| - 1], c) + Copies(checks, c)
      case Returned(_) => 0
  }

  /** What a thread's result variable means, given the shared result: after working on its batch it
      holds the batch's first error; otherwise nothing is claimed of it. */
  predicate ThreadOk(thread: Thread, result: Option<int>) {
    match thread
    case Outside => true
    case Waiting(_) => true
    case Woken(_) => true
    case Locked(_) => true
    case Working(held, pos, _) => pos < |held| && forall c | c in held[..pos] :: !c.Fails()
    case Ready(held, local) =>
      || result.Some?
      || held == []
      || (local.None? && forall c | c in held :: !c.Fails())
      || (local.Some? && exists c :: c in held && c.outcome == local)
  }

  /** The master waits for a reason: the queue is empty and some check is still out. */
  predicate MasterOk(s: State) {
    && |s.threads| > 0
    && (s.threads[MASTER].Waiting? ==> s.queue == [] && s.nTodo > 0)
  }

  /** No error is lost: while none is recorded, every failing check of the round is still pending.
      None is made up: a recorded one is that of a check of the round. */
  ghost predicate ResultOk(s: State) {
    match s.result
    case None => forall c: Check | c.Fails() :: Round(s.events, c) == Pending(s, c)
    case Some(e) => exists c: Check :: c.outcome == Some(e) && Round(s.events, c) > 0
  }

  /** The counters are right, nothing pending is foreign to the round, and results mean what they say. */
  ghost predicate Sound(s: State) {
    && Counted(s)
    && s.nTodo == |s.queue| + InFlight(s.threads)
    && (forall c: Check :: Pending(s, c) <= Round(s.events, c))
    && (forall t | 0 <= t < |s.threads| :: ThreadOk(s.threads[t], s.result))
    && ResultOk(s)
  }

  ghost predicate Inv(s: State) {
    Sound(s) && MasterOk(s)
  }

  lemma {:induction false} InFlightUpdate(threads: seq<Thread>, t: nat, thread: Thread)
    requires t < |threads|
    ensures InFlight(threads[t := thread]) == InFlight(threads) - |Held(threads[t])| + |Held(thread)|
    ensures |Held(threads[t])| <= InFlight(threads)
  {
    var n := |threads| - 1;
    if t < n {
      InFlightUpdate(threads[..n], t, thread);
      assert threads[t := thread][..n] == threads[..n][t := thread];
    } else {
      assert threads[t := thread][..n] == threads[..n];
    }
  }

  lemma {:induction false} InFlightOfUpdate(threads: seq<Thread>, t: nat, thread: Thread, c: Check)
    requires t < |threads|
    ensures InFlightOf(threads[t := thread], c) ==
            InFlightOf(threads, c) - Copies(Held(threads[t]), c) + Copies(Held(thread), c)
    ensures Copies(Held(threads[t]), c) <= InFlightOf(threads, c)
  {
    hide Copies, Held;
    var n := |threads| - 1;
    if t < n {
      InFlightOfUpdate(threads[..n], t, thread, c);
      assert threads[t := thread][..n] == threads[..n][t := thread];
    } else {
      assert threads[t := thread][..n] == threads[..n];
    }
  }

  /** A change of one thread, and of nothing else that counts. */
  lemma WithKeeps(s: State, t: nat, thread: Thread)
    requires Sound(s) && t < |s.threads|
    requires Held(thread) == Held(s.threads[t])
    requires Is(Idle, thread) == Is(Idle, s.threads[t]) && Is(Joined, thread) == Is(Joined, s.threads[t])
    requires ThreadOk(thread, s.result)
    ensures Sound(With(s, t, thread))
  {
    hide Copies, Count, InFlight, InFlightOf, Round;
    CountUpdate(Idle, s.threads, t, thread);
    CountUpdate(Joined, s.threads, t, thread);
    InFlightUpdate(s.threads, t, thread);
    forall c: Check
      ensures Pending(With(s, t, thread), c) == Pending(s, c)
    {
      InFlightOfUpdate(s.threads, t, thread, c);
    }
    hide Pending, ThreadOk;
  }

  /** What reporting a batch does to the pending checks. */
  lemma ReportPending(s: State, t: nat, local: Option<int>, c: Check)
    requires t < |s.threads|
    ensures Pending(With(s, t, Locked(local)), c) == Pending(s, c) - Copies(Held(s.threads[t]), c)
    ensures Copies(Held(s.threads[t]), c) <= Pending(s, c)
    ensures c !in Held(s.threads[t]) ==> Copies(Held(s.threads[t]), c) == 0
    ensures c in Held(s.threads[t]) ==> Copies(Held(s.threads[t]), c) > 0
  {
    InFlightOfUpdate(s.threads, t, Locked(local), c);
  }

  lemma AcquireSound(s: State, t: nat)
    requires Sound(s) && Enabled(s, Lock(t))
    ensures Sound(Acquire(s, t)) && Acquire(s, t).events == s.events
    ensures |Acquire(s, t).threads| == |s.threads| && Acquire(s, t).threads[t].Locked?
    ensures Inv(s) ==> Inv(Acquire(s, t))
  {
    hide Copies, Count, InFlight, InFlightOf, Round, Pending;
    AcquireCounted(s, t);
    var local := Acquire(s, t).threads[t].local;
    var m := With(s, t, Locked(local)).(result := Acquire(s, t).result);
    InFlightUpdate(s.threads, t, Locked(local));
    forall c: Check
      ensures Pending(m, c) == Pending(s, c) - Copies(Held(s.threads[t]), c)
    {
      ReportPending(s, t, local, c);
      PendingSame(m, With(s, t, Locked(local)), c);
    }
    AcquireResult(s, t, m);
    NotifyPending(m, Acquire(s, t));
  }

  lemma PendingSame(s: State, t: State, c: Check)
    requires s.queue == t.queue && s.threads == t.threads
    ensures Pending(s, c) == Pending(t, c)
  {
  }

  /** Waking the master moves no check. */
  lemma NotifyPending(m: State, r: State)
    requires |m.threads| > 0 && r.queue == m.queue
    requires r.threads == m.threads || (m.threads[MASTER].Waiting? && r.threads == m.threads[MASTER := Woken(m.threads[MASTER].local)])
    ensures InFlight(r.threads) == InFlight(m.threads)
    ensures forall c: Check :: Pending(r, c) == Pending(m, c)
  {
    InFlightUpdate(m.threads, MASTER, Woken(None));
    if r.threads != m.threads {
      InFlightUpdate(m.threads, MASTER, r.threads[MASTER]);
    }
    forall c: Check
      ensures Pending(r, c) == Pending(m, c)
    {
      if r.threads != m.threads {
        InFlightOfUpdate(m.threads, MASTER, r.threads[MASTER], c);
      }
    }
  }

  /** Reporting a batch loses no error and makes up none. */
  lemma AcquireResult(s: State, t: nat, m: State)
    requires Sound(s) && Enabled(s, Lock(t)) && m.events == s.events && m.result == Acquire(s, t).result
    requires forall c: Check :: Pending(m, c) == Pending(s, c) - Copies(Held(s.threads[t]), c)
    ensures ResultOk(m)
  {
    hide InFlight, InFlightOf, Round, Counted;
    var held := Held(s.threads[t]);
    assert ThreadOk(s.threads[t], s.result);
    forall c: Check
      ensures c !in held ==> Copies(held, c) == 0
      ensures c in held ==> 0 < Copies(held, c) <= Pending(s, c)
    {
      ReportPending(s, t, None, c);
    }
    hide Copies, Pending;
    if s.result.None? && m.result.Some? {
      var c :| c in held && c.outcome == m.result;
      assert Round(m.events, c) > 0;
    }
  }

  /** Nothing in flight: nobody holds a check. */
  lemma {:induction false} NothingHeld(threads: seq<Thread>, t: nat)
    requires InFlight(threads) == 0 && t < |threads|
    ensures Held(threads[t]) == []
  {
    InFlightUpdate(threads, t, Outside);
  }

  /** What the caller of Complete is promised of the checks added `before` it returns. */
  ghost predicate Correct(before: seq<Event>, result: Option<int>) {
    match result
    case None => forall c: Check | c.Fails() :: Round(before, c) == 0
    case Some(e) => exists c: Check :: c.outcome == Some(e) && Round(before, c) > 0
  }

  /** With nothing left to do, the recorded result is the round's. */
  lemma ResultCorrect(s: State)
    requires Sound(s) && s.queue == [] && s.nTodo == 0
    ensures Correct(s.events, s.result)
  {
    forall c: Check
      ensures Pending(s, c) == 0
    {
      NothingOf(s.threads, c);
    }
  }

  lemma {:induction false} NothingOf(threads: seq<Thread>, c: Check)
    requires InFlight(threads) == 0
    ensures InFlightOf(threads, c) == 0
  {
    if threads != [] {
      NothingOf(threads[..|threads| - 1], c);
    }
  }

  lemma TakeWorkCounted(s: State, t: nat)
    requires Counted(s) && t < |s.threads| && s.threads[t].Locked?
    ensures Counted(TakeWork(s, t))
  {
    var r := TakeWork(s, t);
    CountUpdate(Idle, s.threads, t, r.threads[t]);
    CountUpdate(Joined, s.threads, t, r.threads[t]);
  }

  lemma SplitCopies(checks: seq<Check>, n: nat, c: Check)
    requires n <= |checks|
    ensures Copies(checks, c) == Copies(checks[..n], c) + Copies(checks[n..], c)
  {
    assert checks == checks[..n] + checks[n..];
  }

  /** Returning: the books are closed. */
  lemma ReturnInv(s: State)
    requires Inv(s) && s.threads[MASTER].Locked? && s.queue == [] && s.nTodo == 0
    ensures Inv(TakeWork(s, MASTER)) && Correct(s.events, s.result)
    ensures TakeWork(s, MASTER).events == s.events + [Returned(s.result)]
  {
    var r := TakeWork(s, MASTER);
    TakeWorkCounted(s, MASTER);
    ResultCorrect(s);
    InFlightUpdate(s.threads, MASTER, Outside);
    forall c: Check
      ensures Pending(r, c) == 0 == Round(r.events, c)
    {
      NothingOf(r.threads, c);
    }
    hide Copies, Count, InFlight, InFlightOf, Round, Pending, Correct;
    forall t | 0 <= t < |r.threads|
      ensures ThreadOk(r.threads[t], r.result)
    {
      NothingHeld(r.threads, t);
      assert t != MASTER ==> ThreadOk(s.threads[t], s.result);
    }
  }

  /** Waiting, or taking a batch: checks only move from the queue to the thread. */
  lemma TakePending(s: State, t: nat, c: Check)
    requires Counted(s) && t < |s.threads| && s.threads[t].Locked?
    requires s.queue != [] || t != MASTER || s.nTodo != 0
    ensures Pending(TakeWork(s, t), c) == Pending(s, c)
  {
    hide Copies, Count, InFlightOf, BatchSize;
    var r := TakeWork(s, t);
    InFlightOfUpdate(s.threads, t, r.threads[t], c);
    NoCopies(c);
    if s.queue != [] {
      SplitCopies(s.queue, |s.queue| - BatchSize(s), c);
    }
  }

  lemma NoCopies(c: Check)
    ensures Copies([], c) == 0
  {
  }

  lemma TakeThread(s: State, t: nat)
    requires Counted(s) && t < |s.threads| && s.threads[t].Locked?
    requires s.queue != [] || t != MASTER || s.nTodo != 0
    ensures var r := TakeWork(s, t);
            && ThreadOk(r.threads[t], r.result) && r.result == s.result && r.events == s.events
            && |r.queue| + |Held(r.threads[t])| == |s.queue|
            && (r.threads[t].Waiting? <==> s.queue == [])
            && (s.queue == [] ==> r.queue == [])
            && r.threads == s.threads[t := r.threads[t]] && r.nTodo == s.nTodo
  {
    hide BatchSize, Count;
  }

  lemma TakeWorkInv(s: State, t: nat)
    requires Inv(s) && t < |s.threads| && s.threads[t].Locked?
    requires s.queue != [] || t != MASTER || s.nTodo != 0
    ensures Inv(TakeWork(s, t)) && TakeWork(s, t).events == s.events
  {
    hide Copies, Count, InFlight, InFlightOf, Round, Pending, TakeWork, ThreadOk;
    var r := TakeWork(s, t);
    TakeWorkCounted(s, t);
    TakeThread(s, t);
    InFlightUpdate(s.threads, t, r.threads[t]);
    forall c: Check
      ensures Pending(r, c) == Pending(s, c)
    {
      TakePending(s, t, c);
    }
  }

  lemma LockInv(s: State, t: nat)
    requires Inv(s) && Enabled(s, Lock(t))
    ensures var r := Next(s, Lock(t));
            && Inv(r)
            && (r.events == s.events || exists result :: r.events == s.events + [Returned(result)] && Correct(s.events, result))
  {
    hide Sound, MasterOk, Correct, Acquire, TakeWork;
    AcquireSound(s, t);
    var m := Acquire(s, t);
    if m.queue == [] && t == MASTER && m.nTodo == 0 {
      ReturnInv(m);
    } else {
      TakeWorkInv(m, t);
    }
  }

  lemma AddInv(s: State, checks: seq<Check>)
    requires Inv(s) && Enabled(s, Add(checks))
    ensures Inv(Next(s, Add(checks)))
  {
    var r := Next(s, Add(checks));
    forall c: Check
      ensures Pending(r, c) == Pending(s, c) + Copies(checks, c)
      ensures Round(r.events, c) == Round(s.events, c) + Copies(checks, c)
    {
      assert r.events[..|s.events|] == s.events;
    }
    hide Copies, Count, InFlight, InFlightOf, Round, Pending, ThreadOk;
    if s.result.Some? {
      var c: Check :| c.outcome == s.result && Round(s.events, c) > 0;
      assert Round(r.events, c) > 0;
    }
  }

  lemma StepInv(s: State, step: Step)
    requires Inv(s) && Enabled(s, step)
    ensures var r := Next(s, step);
            && Inv(r)
            && (r.events == s.events
                || (exists checks :: r.events == s.events + [Added(checks)])
                || exists result :: r.events == s.events + [Returned(result)] && Correct(s.events, result))
  {
    match step {
      case Add(checks) => AddInv(s, checks);
      case Complete =>
        hide Sound;
        WithKeeps(s, MASTER, Ready([], None));
      case Lock(t) => LockInv(s, t);
      case RunCheck(t) =>
        assert ThreadOk(s.threads[t], s.result);
        hide Sound, InFlight, InFlightOf, Copies, Round;
        CheckedThread(s.threads[t], s.result);
        WithKeeps(s, t, Next(s, step).threads[t]);
      case Wake(t) =>
        hide Sound;
        WithKeeps(s, t, Woken(s.threads[t].local));
    }
  }

  /** One more check of a batch. */
  lemma CheckedThread(thread: Thread, result: Option<int>)
    requires thread.Working? && thread.pos < |thread.held| && ThreadOk(thread, result)
    ensures var Working(held, pos, _) := thread;
            var local := held[pos].outcome;
            ThreadOk(if local.Some? || pos + 1 == |held| then Ready(held, local) else Working(held, pos + 1, local), result)
  {
    var held, pos := thread.held, thread.pos;
    assert held[..pos + 1] == held[..pos] + [held[pos]];
    assert pos + 1 == |held| ==> held == held[..pos + 1];
    assert held[pos] in held;
  }

  // ---------------------------------------------------------------------------------------------
  // Every schedule

  /** `steps` is a schedule from `s` that ends in `r`. */
  ghost predicate Runs(s: State, steps: seq<Step>, r: State)
    decreases |steps|
  {
    if steps == [] then r == s
    else Counted(s) && Enabled(s, steps[0]) && Runs(Next(s, steps[0]), steps[1..], r)
  }

  /** Every return is right about the checks added since the one before it. */
  ghost predicate AllCorrect(events: seq<Event>) {
    forall i | 0 <= i < |events| && events[i].Returned? :: Correct(events[..i], events[i].result)
  }

  lemma InitInv(workers: nat, batchSize: nat)
    ensures Inv(Init(workers, batchSize))
  {
    var s := Init(workers, batchSize);
    InitCounts(workers, s.threads);
  }

  lemma {:induction false} InitCounts(workers: nat, threads: seq<Thread>)
    requires |threads| <= workers + 1
    requires forall t | 0 <= t < |threads| :: threads[t] in {Outside, Ready([], None)}
    ensures Count(Idle, threads) == 0 && Count(Joined, threads) == 0 && InFlight(threads) == 0
    ensures forall c: Check :: InFlightOf(threads, c) == 0
  {
    if threads != [] {
      InitCounts(workers, threads[..|threads| - 1]);
    }
  }

  /** In every schedule, Complete returns no error exactly if every check of its round passed, and
      otherwise the error of one of them. */
  lemma {:induction false} EveryReturnCorrect(s: State, steps: seq<Step>, r: State)
    requires Inv(s) && AllCorrect(s.events) && Runs(s, steps, r)
    ensures Inv(r) && AllCorrect(r.events)
    decreases |steps|
  {
    hide Inv, Correct, Next, Enabled;
    if steps != [] {
      StepInv(s, steps[0]);
      var m := Next(s, steps[0]);
      MoreEvents(s.events, m.events);
      EveryReturnCorrect(m, steps[1..], r);
    }
  }

  lemma MoreEvents(before: seq<Event>, after: seq<Event>)
    requires AllCorrect(before)
    requires || after == before
             || (exists checks :: after == before + [Added(checks)])
             || exists result :: after == before + [Returned(result)] && Correct(before, result)
    ensures AllCorrect(after)
  {
    hide Correct;
    forall i | 0 <= i < |after| && after[i].Returned?
      ensures Correct(after[..i], after[i].result)
    {
      assert i < |before| ==> after[..i] == before[..i] && after[i] == before[i];
      assert i == |before| ==> after[..i] == before;
    }
  }

  lemma QueueCorrect(workers: nat, batchSize: nat, steps: seq<Step>, r: State)
    requires Runs(Init(workers, batchSize), steps, r)
    ensures Inv(r) && AllCorrect(r.events)
    ensures forall i | 0 <= i < |r.events| && r.events[i].Returned? ::
              r.events[i].result.None? <==> forall c: Check | Round(r.events[..i], c) > 0 :: !c.Fails()
  {
    InitInv(workers, batchSize);
    EveryReturnCorrect(Init(workers, batchSize), steps, r);
    hide Round, Inv;
    forall i | 0 <= i < |r.events| && r.events[i].Returned?
      ensures r.events[i].result.None? <==> forall c: Check | Round(r.events[..i], c) > 0 :: !c.Fails()
    {
      assert Correct(r.events[..i], r.events[i].result);
      if r.events[i].result.Some? {
        var c: Check :| c.outcome == r.events[i].result && Round(r.events[..i], c) > 0;
        assert c.Fails();
      }
    }
  }

  // ---------------------------------------------------------------------------------------------
  // Progress

  /** A waiting master has a worker that holds a batch and can go on by itself. */
  lemma MasterHasHelp(s: State) returns (t: nat)
    requires Inv(s) && s.threads[MASTER].Waiting?
    ensures MASTER < t < |s.threads| && Held(s.threads[t]) != []
    ensures Enabled(s, Lock(t)) || Enabled(s, RunCheck(t))
  {
    t := SomeoneHolds(s.threads);
    assert ThreadOk(s.threads[t], s.result);
  }

  lemma {:induction false} SomeoneHolds(threads: seq<Thread>) returns (t: nat)
    requires InFlight(threads) > 0
    ensures t < |threads| && Held(threads[t]) != []
  {
    t := |threads| - 1;
    if Held(threads[t]) == [] {
      t := SomeoneHolds(threads[..t]);
    }
  }

  /** Steps the threads take on their own: no wake-up and nothing new from outside. */
  predicate Internal(step: Step) {
    step.Lock? || step.RunCheck?
  }

  /** Between steps nobody holds the lock. */
  predicate Settled(s: State) {
    forall t | 0 <= t < |s.threads| :: !s.threads[t].Locked?
  }

  lemma StepSettled(s: State, step: Step)
    requires Counted(s) && Enabled(s, step) && Settled(s)
    ensures Settled(Next(s, step))
  {
    hide Count, BatchSize;
    if step.Lock? {
      AcquireCounted(s, step.t);
      var m := Acquire(s, step.t);
      assert forall t | 0 <= t < |m.threads| && t != step.t :: !m.threads[t].Locked?;
    }
  }

  /** While Complete has not returned, some thread can take such a step. */
  lemma NeverStuck(s: State)
    requires Inv(s) && Settled(s) && !s.threads[MASTER].Outside?
    ensures exists step :: Internal(step) && Enabled(s, step)
  {
    var t := MASTER;
    if s.threads[MASTER].Waiting? {
      t := MasterHasHelp(s);
    } else {
      assert ThreadOk(s.threads[MASTER], s.result);
    }
    if Enabled(s, Lock(t)) {
      assert Internal(Lock(t));
    } else {
      assert Internal(RunCheck(t)) && Enabled(s, RunCheck(t));
    }
  }

  /** How much a thread may still do before it waits. */
  function Effort(thread: Thread): int {
    match thread
    case Outside => 0
    case Ready(_, _) => 3
    case Working(held, pos, _) => 3 + |held| - pos
    case Waiting(_) => 0
    case Woken(_) => 1
    case Locked(_) => 0
  }

  function Efforts(threads: seq<Thread>): int {
    if threads == [] then 0
    else Efforts(threads[..|threads| - 1]) + Effort(threads[|threads| - 1])
  }

  lemma {:induction false} EffortsUpdate(threads: seq<Thread>, t: nat, thread: Thread)
    requires t < |threads|
    ensures Efforts(threads[t := thread]) == Efforts(threads) - Effort(threads[t]) + Effort(thread)
  {
    hide Effort;
    var n := |threads| - 1;
    if t < n {
      EffortsUpdate(threads[..n], t, thread);
      assert threads[t := thread][..n] == threads[..n][t := thread];
    } else {
      assert threads[t := thread][..n] == threads[..n];
    }
  }

  lemma {:induction false} EffortsNonNegative(s: State, n: nat)
    requires Sound(s) && n <= |s.threads|
    ensures Efforts(s.threads[..n]) >= 0
  {
    if n > 0 {
      EffortsNonNegative(s, n - 1);
      assert s.threads[..n][..n - 1] == s.threads[..n - 1];
      assert ThreadOk(s.threads[n - 1], s.result);
    }
  }

  function Work(s: State): int {
    5 * |s.queue| + Efforts(s.threads)
  }

  lemma AcquireWork(s: State, t: nat)
    requires Inv(s) && Enabled(s, Lock(t))
    ensures var m := Acquire(s, t);
            && m.queue == s.queue
            && Efforts(m.threads) <= Efforts(s.threads) - Effort(s.threads[t]) + (if s.queue == [] && s.threads[t].Ready? then 1 else 0)
  {
    hide Efforts, Sound, Count;
    var local := Acquire(s, t).threads[t].local;
    EffortsUpdate(s.threads, t, Locked(local));
    var m := s.threads[t := Locked(local)];
    EffortsUpdate(m, MASTER, Woken(None));
    if m[MASTER].Waiting? {
      EffortsUpdate(m, MASTER, Woken(m[MASTER].local));
    }
  }

  lemma TakeWorkWork(s: State, t: nat)
    requires Counted(s) && t < |s.threads| && s.threads[t].Locked?
    ensures var r := TakeWork(s, t);
            if s.queue == [] then Work(r) == Work(s) else Work(r) <= Work(s) - 1
  {
    hide Efforts, Count, BatchSize;
    EffortsUpdate(s.threads, t, TakeWork(s, t).threads[t]);
  }

  lemma InternalWork(s: State, step: Step)
    requires Inv(s) && Enabled(s, step) && Internal(step)
    ensures Work(Next(s, step)) < Work(s)
  {
    hide Efforts, Count, InFlight, InFlightOf, Round, ThreadOk, ResultOk, Pending;
    match step {
      case Lock(t) =>
        AcquireCounted(s, t);
        AcquireWork(s, t);
        hide Acquire, TakeWork;
        TakeWorkWork(Acquire(s, t), t);
      case RunCheck(t) =>
        EffortsUpdate(s.threads, t, Next(s, step).threads[t]);
    }
  }

  /** However the threads are scheduled, they take only so many steps, and when none is left to take
      Complete has returned: no schedule needs a stray wake-up to finish. */
  lemma {:induction false} CompleteReturns(s: State, steps: seq<Step>, r: State)
    requires Inv(s) && Settled(s) && Runs(s, steps, r) && forall i | 0 <= i < |steps| :: Internal(steps[i])
    ensures |steps| <= Work(s)
    ensures |r.threads| > 0
    ensures (forall step | Internal(step) :: !Enabled(r, step)) ==> r.threads[MASTER].Outside?
    decreases |steps|
  {
    hide Next, Enabled, Work, Sound, Counted, Settled;
    if steps == [] {
      WorkNonNegative(s);
      if !s.threads[MASTER].Outside? {
        NeverStuck(s);
      }
    } else {
      StepInv(s, steps[0]);
      StepSettled(s, steps[0]);
      InternalWork(s, steps[0]);
      CompleteReturns(Next(s, steps[0]), steps[1..], r);
    }
  }

  lemma WorkNonNegative(s: State)
    requires Inv(s)
    ensures Work(s) >= 0
  {
    EffortsNonNegative(s, |s.threads|);
    assert s.threads[..|s.threads|] == s.threads;
  }
}
