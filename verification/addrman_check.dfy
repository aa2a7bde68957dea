/**
 * The consistency check of the address manager, and what it finds out.
 *
 * It returns zero exactly if the conditions it looks at hold.  They hold after every run; conversely a state
 * that passes can still be inconsistent, and `ConsistentIsChecked` says in exactly which ways.
 */
module AddrManChecks {
  import opened AddrMan

  /** The tables have the sizes of the source's arrays. */
  predicate InRange(s: State) {
    && (forall slot | slot in s.newTable :: slot.bucket < NEW_BUCKETS && slot.position < BUCKET_SIZE)
    && (forall slot | slot in s.triedTable :: slot.bucket < TRIED_BUCKETS && slot.position < BUCKET_SIZE)
  }

  // ----- What is looked at -----

  /** The entry itself, whichever table it belongs to. */
  predicate EntryChecked(s: State, id: Id, info: Info) {
    && (info.inTried ==> info.lastSuccess != 0 && info.references == 0)
    && (!info.inTried ==> 0 < info.references <= MAX_REFERENCES)
    && info.addr in s.byAddr && s.byAddr[info.addr] == id
    && 0 <= info.randomPos < |s.random| && s.random[info.randomPos] == id
    && info.lastTry >= 0 && info.lastSuccess >= 0
  }

  predicate InfosChecked(s: State) {
    forall id | id in s.infos :: EntryChecked(s, id, s.infos[id])
  }

  predicate TriedChecked(s: State) {
    && (forall slot | slot in s.triedTable :: TriedEntryOk(s, slot, s.triedTable[slot]))
    && (forall id | id in Tried(s) :: id in s.triedTable.Values)
  }

  predicate NewPlaced(s: State, slot: Slot, id: Id) {
    id in Untried(s) && slot.position == s.h.newPosition(s.infos[id].addr, slot.bucket)
  }

  predicate NewChecked(s: State) {
    && (forall slot | slot in s.newTable :: NewPlaced(s, slot, s.newTable[slot]))
    && (forall id | id in Untried(s) :: |Occurrences(s.newTable, id)| == s.infos[id].references)
  }

  /** The networks of the known addresses. */
  function Networks(s: State, ids: set<Id>): set<nat> {
    set id | id in ids && id in s.infos :: NetworkOf(s, id)
  }

  function CountIn(s: State, ids: set<Id>, net: nat): Count {
    Count(|OfNetwork(s, Untried(s) * ids, net)|, |OfNetwork(s, Tried(s) * ids, net)|)
  }

  predicate CountsChecked(s: State) {
    && |s.counts| >= |Networks(s, s.infos.Keys)|
    && (forall net | net in s.counts :: s.counts[net] == CountIn(s, s.infos.Keys, net))
  }

  predicate SizesChecked(s: State) {
    |s.random| == s.nTried + s.nNew && |Tried(s)| == s.nTried && |Untried(s)| == s.nNew
  }

  /** What the check establishes when it returns zero. */
  predicate Checked(s: State) {
    SizesChecked(s) && InfosChecked(s) && TriedChecked(s) && NewChecked(s) && CountsChecked(s)
  }

  // ----- The check -----

  function LocalOf(local: map<nat, Count>, net: nat): Count {
    if net in local then local[net] else Count(0, 0)
  }

  /** What the pass over the entries has collected of those seen. */
  predicate Collected(s: State, seen: set<Id>, tried: set<Id>, refs: map<Id, int>, local: map<nat, Count>) {
    && seen <= s.infos.Keys && tried == Tried(s) * seen
    && refs.Keys == Untried(s) * seen && (forall id | id in refs :: refs[id] == s.infos[id].references)
    && local.Keys == Networks(s, seen) && (forall net | net in local :: local[net] == CountIn(s, seen, net))
  }

  /** What is wrong, by the number returned. */
  predicate EntryViolates(s: State, id: Id, info: Info, code: int) {
    match code
    case -1 => info.inTried && info.lastSuccess == 0
    case -2 => info.inTried && info.references != 0
    case -3 => !info.inTried && (info.references < 0 || info.references > MAX_REFERENCES)
    case -4 => !info.inTried && info.references == 0
    case -5 => !(info.addr in s.byAddr && s.byAddr[info.addr] == id)
    case -14 => !(0 <= info.randomPos < |s.random| && s.random[info.randomPos] == id)
    case -6 => info.lastTry < 0
    case -8 => info.lastSuccess < 0
    case _ => false
  }

  lemma CollectTried(s: State, seen: set<Id>, tried: set<Id>, refs: map<Id, int>, local: map<nat, Count>, id: Id)
    requires Collected(s, seen, tried, refs, local) && id in s.infos && id !in seen && s.infos[id].inTried
    ensures var net := NetworkOf(s, id);
            var c := LocalOf(local, net);
            Collected(s, seen + {id}, tried + {id}, refs, local[net := Count(c.untried, c.tried + 1)])
  {
    hide OfNetwork;
    var more := seen + {id};
    assert Tried(s) * more == Tried(s) * seen + {id} && Untried(s) * more == Untried(s) * seen;
    assert Networks(s, more) == Networks(s, seen) + {NetworkOf(s, id)};
    forall net: nat
      ensures CountIn(s, more, net) == Count(CountIn(s, seen, net).untried, CountIn(s, seen, net).tried + if NetworkOf(s, id) == net then 1 else 0)
    {
      NetAdd(s, Tried(s) * seen, id, net);
    }
    NoneOfNetwork(s, seen, NetworkOf(s, id));
  }

  lemma CollectUntried(s: State, seen: set<Id>, tried: set<Id>, refs: map<Id, int>, local: map<nat, Count>, id: Id)
    requires Collected(s, seen, tried, refs, local) && id in s.infos && id !in seen && !s.infos[id].inTried
    ensures var net := NetworkOf(s, id);
            var c := LocalOf(local, net);
            Collected(s, seen + {id}, tried, refs[id := s.infos[id].references], local[net := Count(c.untried + 1, c.tried)])
  {
    hide OfNetwork;
    var more := seen + {id};
    assert Untried(s) * more == Untried(s) * seen + {id} && Tried(s) * more == Tried(s) * seen;
    assert Networks(s, more) == Networks(s, seen) + {NetworkOf(s, id)};
    forall net: nat
      ensures CountIn(s, more, net) == Count(CountIn(s, seen, net).untried + (if NetworkOf(s, id) == net then 1 else 0), CountIn(s, seen, net).tried)
    {
      NetAdd(s, Untried(s) * seen, id, net);
    }
    NoneOfNetwork(s, seen, NetworkOf(s, id));
  }

  lemma NoneOfNetwork(s: State, seen: set<Id>, net: nat)
    requires seen <= s.infos.Keys
    ensures net !in Networks(s, seen) ==> CountIn(s, seen, net) == Count(0, 0)
  {
    if net !in Networks(s, seen) {
      forall id | id in seen
        ensures s.h.network(s.infos[id].addr) != net
      {
        assert NetworkOf(s, id) in Networks(s, seen);
      }
      assert OfNetwork(s, Untried(s) * seen, net) == {} && OfNetwork(s, Tried(s) * seen, net) == {};
    }
  }

  /** Add one entry to what is collected. */
  method Collect(s: State, id: Id, tried0: set<Id>, refs0: map<Id, int>, local0: map<nat, Count>, ghost seen: set<Id>)
    returns (tried: set<Id>, refs: map<Id, int>, local: map<nat, Count>)
    requires Collected(s, seen, tried0, refs0, local0) && id in s.infos && id !in seen
    ensures Collected(s, seen + {id}, tried, refs, local)
  {
    hide Collected;
    var info := s.infos[id];
    var net := s.h.network(info.addr);
    var c := LocalOf(local0, net);
    if info.inTried {
      CollectTried(s, seen, tried0, refs0, local0, id);
      tried, refs, local := tried0 + {id}, refs0, local0[net := Count(c.untried, c.tried + 1)];
    } else {
      CollectUntried(s, seen, tried0, refs0, local0, id);
      tried, refs, local := tried0, refs0[id := info.references], local0[net := Count(c.untried + 1, c.tried)];
    }
  }

  /** Look at every entry, collecting which are tried, how many references the others have, and how many of
      either kind each network has. */
  method CheckInfos(s: State) returns (code: int, tried: set<Id>, refs: map<Id, int>, local: map<nat, Count>)
    ensures code == 0 <==> InfosChecked(s)
    ensures code == 0 ==> Collected(s, s.infos.Keys, tried, refs, local)
    ensures code != 0 ==> exists id | id in s.infos :: EntryViolates(s, id, s.infos[id], code)
  {
    hide Collected, EntryChecked, EntryViolates;
    code, tried, refs, local := 0, {}, map[], map[];
    var left := s.infos.Keys;
    ghost var seen: set<Id> := {};
    NothingCollected(s);
    while left != {}
      invariant left <= s.infos.Keys && seen == s.infos.Keys - left && code == 0
      invariant forall id | id in seen :: EntryChecked(s, id, s.infos[id])
      invariant Collected(s, seen, tried, refs, local)
      decreases |left|
    {
      var id :| id in left;
      code := CheckEntry(s, id, s.infos[id]);
      if code != 0 {
        return;
      }
      tried, refs, local := Collect(s, id, tried, refs, local, seen);
      left, seen := left - {id}, seen + {id};
    }
    assert seen == s.infos.Keys;
  }

  lemma NothingCollected(s: State)
    ensures Collected(s, {}, {}, map[], map[])
  {
  }

  method CheckEntry(s: State, id: Id, info: Info) returns (code: int)
    ensures code == 0 <==> EntryChecked(s, id, info)
    ensures code != 0 ==> EntryViolates(s, id, info, code)
  {
    if info.inTried {
      if info.lastSuccess == 0 {
        return -1;
      }
      if info.references != 0 {
        return -2;
      }
    } else {
      if info.references < 0 || info.references > MAX_REFERENCES {
        return -3;
      }
      if info.references == 0 {
        return -4;
      }
    }
    if info.addr !in s.byAddr || s.byAddr[info.addr] != id {
      return -5;
    }
    if info.randomPos < 0 || info.randomPos >= |s.random| || s.random[info.randomPos] != id {
      return -14;
    }
    if info.lastTry < 0 {
      return -6;
    }
    if info.lastSuccess < 0 {
      return -8;
    }
    code := 0;
  }

  // ----- The tables -----

  /** The slots a scan over buckets and positions has passed when it stands at position `i` of bucket `n`. */
  predicate Passed(slot: Slot, n: nat, i: nat) {
    slot.bucket < n || (slot.bucket == n && slot.position < i)
  }

  function IdsPassed(table: Table, n: nat, i: nat): set<Id> {
    set slot | slot in table && Passed(slot, n, i) :: table[slot]
  }

  /** One entry of the tried table, with the ids that have not been met yet. */
  method CheckTriedSlot(s: State, n: nat, i: nat, left: set<Id>) returns (code: int)
    requires left == Tried(s) - IdsPassed(s.triedTable, n, i) && Slot(n, i) in s.triedTable
    ensures code == 0 ==> TriedEntryOk(s, Slot(n, i), s.triedTable[Slot(n, i)]) && s.triedTable[Slot(n, i)] in left
    ensures code != 0 ==> TriedViolates(s, code) && !TriedChecked(s)
  {
    hide IdsPassed;
    var id := s.triedTable[Slot(n, i)];
    if id !in left {
      MetTwice(s, n, i, id);
      return -11;
    }
    if id !in s.infos || s.h.triedSlot(s.infos[id].addr).bucket != n {
      return -17;
    }
    if s.h.triedSlot(s.infos[id].addr).position != i {
      return -18;
    }
    code := 0;
  }

  /** What is wrong with the tried table. */
  predicate TriedViolates(s: State, code: int) {
    match code
    case -11 => exists slot | slot in s.triedTable :: s.triedTable[slot] !in Tried(s) || HeldTwice(s.triedTable, s.triedTable[slot])
    case -17 => exists slot | slot in s.triedTable :: !OfBucket(s, slot, s.triedTable[slot])
    case -18 => exists slot | slot in s.triedTable :: OfBucket(s, slot, s.triedTable[slot]) && !TriedEntryOk(s, slot, s.triedTable[slot])
    case -13 => exists id | id in Tried(s) :: id !in s.triedTable.Values
    case _ => false
  }

  predicate OfBucket(s: State, slot: Slot, id: Id) {
    id in s.infos && s.h.triedSlot(s.infos[id].addr).bucket == slot.bucket
  }

  predicate HeldTwice(table: Table, id: Id) {
    exists a, b | a in table && b in table && a != b :: table[a] == id && table[b] == id
  }

  lemma MetTwice(s: State, n: nat, i: nat, id: Id)
    requires Slot(n, i) in s.triedTable && s.triedTable[Slot(n, i)] == id && id !in Tried(s) - IdsPassed(s.triedTable, n, i)
    ensures id !in Tried(s) || HeldTwice(s.triedTable, id)
    ensures !TriedChecked(s)
  {
    if id in IdsPassed(s.triedTable, n, i) {
      var slot :| slot in s.triedTable && Passed(slot, n, i) && s.triedTable[slot] == id;
      assert slot != Slot(n, i);
      assert TriedEntryOk(s, slot, id) && TriedEntryOk(s, Slot(n, i), id) ==> slot == Slot(n, i);
    } else {
      assert id !in Tried(s);
      assert TriedEntryOk(s, Slot(n, i), id) ==> id in Tried(s);
    }
  }

  /** The slots passed are in order, and `left` are the tried ids not met in them. */
  predicate TriedSeen(s: State, left: set<Id>, n: nat, i: nat) {
    && left == Tried(s) - IdsPassed(s.triedTable, n, i)
    && (forall slot | slot in s.triedTable && Passed(slot, n, i) :: TriedEntryOk(s, slot, s.triedTable[slot]))
  }

  lemma PassedStep(table: Table, n: nat, i: nat)
    ensures forall slot | slot in table :: Passed(slot, n, i + 1) <==> Passed(slot, n, i) || slot == Slot(n, i)
    ensures Slot(n, i) in table ==> IdsPassed(table, n, i + 1) == IdsPassed(table, n, i) + {table[Slot(n, i)]}
    ensures Slot(n, i) !in table ==> IdsPassed(table, n, i + 1) == IdsPassed(table, n, i)
  {
  }

  lemma PassedBucket(table: Table, n: nat)
    requires forall slot | slot in table :: slot.position < BUCKET_SIZE
    ensures forall slot | slot in table :: Passed(slot, n, BUCKET_SIZE) <==> Passed(slot, n + 1, 0)
    ensures IdsPassed(table, n, BUCKET_SIZE) == IdsPassed(table, n + 1, 0)
  {
  }

  /** Scan the tried table; `left` are the tried ids it does not hold. */
  method CheckTried(s: State, tried: set<Id>) returns (code: int, left: set<Id>)
    requires InRange(s) && tried == Tried(s)
    ensures code == 0 ==> left == Tried(s) - s.triedTable.Values
    ensures code == 0 ==> forall slot | slot in s.triedTable :: TriedEntryOk(s, slot, s.triedTable[slot])
    ensures code != 0 ==> TriedViolates(s, code) && !TriedChecked(s)
  {
    hide TriedEntryOk, TriedChecked, TriedViolates, IdsPassed, Passed, Tried;
    code, left := 0, tried;
    TriedStart(s);
    for n := 0 to TRIED_BUCKETS
      invariant code == 0 && TriedSeen(s, left, n, 0)
    {
      for i := 0 to BUCKET_SIZE
        invariant code == 0 && TriedSeen(s, left, n, i)
      {
        PassedStep(s.triedTable, n, i);
        if Slot(n, i) in s.triedTable {
          code := CheckTriedSlot(s, n, i, left);
          if code != 0 {
            return;
          }
          left := left - {s.triedTable[Slot(n, i)]};
        }
      }
      PassedBucket(s.triedTable, n);
    }
    TriedEnd(s, left);
  }

  lemma TriedStart(s: State)
    ensures TriedSeen(s, Tried(s), 0, 0)
  {
    assert IdsPassed(s.triedTable, 0, 0) == {};
  }

  lemma TriedEnd(s: State, left: set<Id>)
    requires InRange(s) && TriedSeen(s, left, TRIED_BUCKETS, 0)
    ensures left == Tried(s) - s.triedTable.Values
    ensures forall slot | slot in s.triedTable :: TriedEntryOk(s, slot, s.triedTable[slot])
  {
    assert forall slot | slot in s.triedTable :: Passed(slot, TRIED_BUCKETS, 0);
    assert IdsPassed(s.triedTable, TRIED_BUCKETS, 0) == s.triedTable.Values;
  }

  // ----- The new table -----

  function OccurrencesPassed(table: Table, id: Id, n: nat, i: nat): set<Slot> {
    set slot | slot in table && table[slot] == id && Passed(slot, n, i)
  }

  /** How often an id has been met is what its reference count has been lowered by. */
  predicate RefsLeft(s: State, refs: map<Id, int>, id: Id, n: nat, i: nat)
    requires id in s.infos
  {
    var met, all := |OccurrencesPassed(s.newTable, id, n, i)|, s.infos[id].references;
    met <= all && (id in refs <==> met < all) && (id in refs ==> refs[id] == all - met)
  }

  predicate NewSeen(s: State, refs: map<Id, int>, n: nat, i: nat) {
    && refs.Keys <= Untried(s)
    && (forall id | id in Untried(s) :: RefsLeft(s, refs, id, n, i))
    && (forall slot | slot in s.newTable && Passed(slot, n, i) :: NewPlaced(s, slot, s.newTable[slot]))
  }

  /** What is wrong with the new table. */
  predicate NewViolates(s: State, code: int) {
    match code
    case -12 => exists slot | slot in s.newTable :: s.newTable[slot] !in Untried(s) || TooMany(s, s.newTable[slot])
    case -19 => exists slot | slot in s.newTable :: s.newTable[slot] in Untried(s) && !NewPlaced(s, slot, s.newTable[slot])
    case -15 => exists id | id in Untried(s) :: |Occurrences(s.newTable, id)| < s.infos[id].references
    case _ => false
  }

  predicate TooMany(s: State, id: Id) {
    id in s.infos && |Occurrences(s.newTable, id)| > s.infos[id].references
  }

  lemma OccurrencesStep(table: Table, id: Id, n: nat, i: nat)
    ensures var a, b := OccurrencesPassed(table, id, n, i), OccurrencesPassed(table, id, n, i + 1);
            if Slot(n, i) in table && table[Slot(n, i)] == id then |b| == |a| + 1 else b == a
    ensures |OccurrencesPassed(table, id, n, i)| + (if Slot(n, i) in table && table[Slot(n, i)] == id then 1 else 0) <= |Occurrences(table, id)|
  {
    var a, b, all := OccurrencesPassed(table, id, n, i), OccurrencesPassed(table, id, n, i + 1), Occurrences(table, id);
    var here := Slot(n, i);
    if here in table && table[here] == id {
      assert b == a + {here} && here !in a;
    } else {
      assert b == a;
    }
    assert b <= all;
    Smaller(b, all);
  }

  /** An id met more often than it has references, or one that is not new. */
  lemma MetTooOften(s: State, refs: map<Id, int>, n: nat, i: nat)
    requires NewSeen(s, refs, n, i) && Slot(n, i) in s.newTable && s.newTable[Slot(n, i)] !in refs
    ensures NewViolates(s, -12) && !NewChecked(s)
  {
    var here := Slot(n, i);
    var id := s.newTable[here];
    if id in Untried(s) {
      OccurrencesStep(s.newTable, id, n, i);
      assert TooMany(s, id);
    } else {
      assert !NewPlaced(s, here, id);
    }
  }

  /** One entry of the new table. */
  method CheckNewSlot(s: State, n: nat, i: nat, refs: map<Id, int>) returns (code: int, left: map<Id, int>)
    requires NewSeen(s, refs, n, i) && Slot(n, i) in s.newTable
    ensures code == 0 ==> NewSeen(s, left, n, i + 1)
    ensures code != 0 ==> NewViolates(s, code) && !NewChecked(s)
  {
    hide NewViolates, NewChecked, NewSeen;
    var id := s.newTable[Slot(n, i)];
    left := refs;
    if id !in refs {
      MetTooOften(s, refs, n, i);
      return -12, left;
    }
    RefsKnown(s, refs, n, i, id);
    if s.h.newPosition(s.infos[id].addr, n) != i {
      Misplaced(s, n, i);
      return -19, left;
    }
    NewStep(s, refs, n, i);
    left := refs[id := refs[id] - 1];
    if left[id] == 0 {
      left := refs - {id};
    }
    code := 0;
  }

  lemma RefsKnown(s: State, refs: map<Id, int>, n: nat, i: nat, id: Id)
    requires NewSeen(s, refs, n, i) && id in refs
    ensures id in Untried(s) && id in s.infos
  {
  }

  lemma Misplaced(s: State, n: nat, i: nat)
    requires Slot(n, i) in s.newTable && s.newTable[Slot(n, i)] in Untried(s)
    requires s.h.newPosition(s.infos[s.newTable[Slot(n, i)]].addr, n) != i
    ensures NewViolates(s, -19) && !NewChecked(s)
  {
    assert !NewPlaced(s, Slot(n, i), s.newTable[Slot(n, i)]);
  }

  lemma NewStep(s: State, refs: map<Id, int>, n: nat, i: nat)
    requires NewSeen(s, refs, n, i) && Slot(n, i) in s.newTable && s.newTable[Slot(n, i)] in refs
    requires NewPlaced(s, Slot(n, i), s.newTable[Slot(n, i)])
    ensures var id := s.newTable[Slot(n, i)];
            NewSeen(s, if refs[id] == 1 then refs - {id} else refs[id := refs[id] - 1], n, i + 1)
  {
    hide OccurrencesPassed, Occurrences, Passed, IdsPassed;
    var one := s.newTable[Slot(n, i)];
    var left := if refs[one] == 1 then refs - {one} else refs[one := refs[one] - 1];
    PassedStep(s.newTable, n, i);
    forall id | id in Untried(s)
      ensures RefsLeft(s, left, id, n, i + 1)
    {
      assert RefsLeft(s, refs, id, n, i);
      OccurrencesStep(s.newTable, id, n, i);
    }
  }

  lemma NewSkip(s: State, refs: map<Id, int>, n: nat, i: nat)
    requires NewSeen(s, refs, n, i) && Slot(n, i) !in s.newTable
    ensures NewSeen(s, refs, n, i + 1)
  {
    hide OccurrencesPassed, Occurrences, Passed, IdsPassed;
    PassedStep(s.newTable, n, i);
    forall id | id in Untried(s)
      ensures RefsLeft(s, refs, id, n, i + 1)
    {
      assert RefsLeft(s, refs, id, n, i);
      OccurrencesStep(s.newTable, id, n, i);
    }
  }

  lemma NewBucket(s: State, refs: map<Id, int>, n: nat)
    requires InRange(s) && NewSeen(s, refs, n, BUCKET_SIZE)
    ensures NewSeen(s, refs, n + 1, 0)
  {
    PassedBucket(s.newTable, n);
    forall id | id in Untried(s)
      ensures RefsLeft(s, refs, id, n + 1, 0)
    {
      assert RefsLeft(s, refs, id, n, BUCKET_SIZE);
      assert OccurrencesPassed(s.newTable, id, n, BUCKET_SIZE) == OccurrencesPassed(s.newTable, id, n + 1, 0);
    }
  }

  lemma NewStart(s: State, refs: map<Id, int>)
    requires InfosChecked(s) && refs.Keys == Untried(s) && forall id | id in refs :: refs[id] == s.infos[id].references
    ensures NewSeen(s, refs, 0, 0)
  {
    forall id | id in Untried(s)
      ensures RefsLeft(s, refs, id, 0, 0)
    {
      assert EntryChecked(s, id, s.infos[id]);
      assert OccurrencesPassed(s.newTable, id, 0, 0) == {};
    }
  }

  lemma NewEnd(s: State, left: map<Id, int>)
    requires InRange(s) && NewSeen(s, left, NEW_BUCKETS, 0)
    ensures forall slot | slot in s.newTable :: NewPlaced(s, slot, s.newTable[slot])
    ensures left.Keys == set id | id in Untried(s) && |Occurrences(s.newTable, id)| < s.infos[id].references
    ensures forall id | id in Untried(s) :: |Occurrences(s.newTable, id)| <= s.infos[id].references
  {
    assert forall slot | slot in s.newTable :: Passed(slot, NEW_BUCKETS, 0);
    forall id | id in Untried(s)
      ensures |Occurrences(s.newTable, id)| <= s.infos[id].references
      ensures id in left <==> |Occurrences(s.newTable, id)| < s.infos[id].references
    {
      assert RefsLeft(s, left, id, NEW_BUCKETS, 0);
      assert OccurrencesPassed(s.newTable, id, NEW_BUCKETS, 0) == Occurrences(s.newTable, id);
    }
  }

  /** Scan the new table; `left` are the ids it holds less often than they have references. */
  method CheckNew(s: State, refs: map<Id, int>) returns (code: int, left: map<Id, int>)
    requires InRange(s) && NewSeen(s, refs, 0, 0)
    ensures code == 0 ==> NewSeen(s, left, NEW_BUCKETS, 0)
    ensures code != 0 ==> NewViolates(s, code) && !NewChecked(s)
  {
    hide NewViolates, NewChecked, NewSeen;
    code, left := 0, refs;
    for n := 0 to NEW_BUCKETS
      invariant code == 0 && NewSeen(s, left, n, 0)
    {
      for i := 0 to BUCKET_SIZE
        invariant code == 0 && NewSeen(s, left, n, i)
      {
        if Slot(n, i) in s.newTable {
          code, left := CheckNewSlot(s, n, i, left);
          if code != 0 {
            return;
          }
        } else {
          NewSkip(s, left, n, i);
        }
      }
      NewBucket(s, left, n);
    }
  }

  // ----- The counts -----

  predicate CountsViolate(s: State, code: int) {
    match code
    case -20 => |s.counts| < |Networks(s, s.infos.Keys)|
    case -21 => exists net | net in s.counts :: s.counts[net] != CountIn(s, s.infos.Keys, net)
    case _ => false
  }

  method CheckCounts(s: State, local: map<nat, Count>) returns (code: int)
    requires local.Keys == Networks(s, s.infos.Keys) && forall net | net in local :: local[net] == CountIn(s, s.infos.Keys, net)
    ensures code == 0 <==> CountsChecked(s)
    ensures code != 0 ==> CountsViolate(s, code)
  {
    hide Networks, CountIn;
    assert |local| == |local.Keys|;
    if |s.counts| < |local| {
      return -20;
    }
    var left := s.counts.Keys;
    while left != {}
      invariant left <= s.counts.Keys
      invariant forall net | net in s.counts.Keys - left :: s.counts[net] == CountIn(s, s.infos.Keys, net)
      decreases |left|
    {
      var net :| net in left;
      NoneOfNetwork(s, s.infos.Keys, net);
      if LocalOf(local, net) != s.counts[net] {
        return -21;
      }
      left := left - {net};
    }
    code := 0;
  }

  // ----- The whole check -----

  /** What a returned number says. */
  predicate Violates(s: State, nullKey: bool, code: int) {
    match code
    case -7 => |s.random| != s.nTried + s.nNew
    case -9 => |Tried(s)| != s.nTried
    case -10 => |Untried(s)| != s.nNew
    case -16 => nullKey
    case _ =>
      || (exists id | id in s.infos :: EntryViolates(s, id, s.infos[id], code))
      || TriedViolates(s, code) || NewViolates(s, code) || CountsViolate(s, code)
  }

  /** Zero exactly if everything looked at is in order; any other number names something that is not. */
  method CheckAddrman(s: State, nullKey: bool) returns (code: int)
    requires InRange(s)
    ensures code == 0 <==> Checked(s) && !nullKey
    ensures code != 0 ==> Violates(s, nullKey, code)
  {
    hide InfosChecked, TriedChecked, NewChecked, CountsChecked, Collected, TriedViolates, NewViolates, CountsViolate, EntryViolates, NewSeen, InRange, Tried, Untried;
    if |s.random| != s.nTried + s.nNew {
      return -7;
    }
    var tried, refs, local;
    code, tried, refs, local := CheckInfos(s);
    if code != 0 {
      InfoCode(s, nullKey, code);
      return;
    }
    CollectedAll(s, tried, refs, local);
    if |tried| != s.nTried {
      return -9;
    }
    if |refs| != s.nNew {
      return -10;
    }
    var triedLeft, newLeft;
    code, triedLeft := CheckTried(s, tried);
    if code != 0 {
      TableCode(s, nullKey, code);
      return;
    }
    NewStart(s, refs);
    code, newLeft := CheckNew(s, refs);
    if code != 0 {
      TableCode(s, nullKey, code);
      return;
    }
    TriedVerdict(s, triedLeft);
    NewVerdict(s, newLeft);
    if |triedLeft| != 0 {
      TableCode(s, nullKey, -13);
      return -13;
    }
    if |newLeft| != 0 {
      TableCode(s, nullKey, -15);
      return -15;
    }
    if nullKey {
      return -16;
    }
    code := CheckCounts(s, local);
    if code != 0 {
      TableCode(s, nullKey, code);
    }
  }

  lemma InfoCode(s: State, nullKey: bool, code: int)
    requires exists id | id in s.infos :: EntryViolates(s, id, s.infos[id], code)
    ensures Violates(s, nullKey, code)
  {
  }

  lemma TableCode(s: State, nullKey: bool, code: int)
    requires TriedViolates(s, code) || NewViolates(s, code) || CountsViolate(s, code)
    ensures Violates(s, nullKey, code)
  {
  }

  lemma CollectedAll(s: State, tried: set<Id>, refs: map<Id, int>, local: map<nat, Count>)
    requires Collected(s, s.infos.Keys, tried, refs, local)
    ensures tried == Tried(s) && refs.Keys == Untried(s) && |refs| == |Untried(s)|
    ensures forall id | id in refs :: refs[id] == s.infos[id].references
    ensures local.Keys == Networks(s, s.infos.Keys) && forall net | net in local :: local[net] == CountIn(s, s.infos.Keys, net)
  {
    hide CountIn, Networks;
    assert Tried(s) * s.infos.Keys == Tried(s) && Untried(s) * s.infos.Keys == Untried(s);
    assert |refs| == |refs.Keys|;
  }

  lemma TriedVerdict(s: State, left: set<Id>)
    requires left == Tried(s) - s.triedTable.Values
    requires forall slot | slot in s.triedTable :: TriedEntryOk(s, slot, s.triedTable[slot])
    ensures |left| == 0 <==> TriedChecked(s)
    ensures |left| != 0 ==> TriedViolates(s, -13)
  {
    hide TriedEntryOk;
    if |left| != 0 {
      var id :| id in left;
      assert id in Tried(s) && id !in s.triedTable.Values;
    } else {
      assert left == {};
      assert forall id | id in Tried(s) :: id in s.triedTable.Values || id in left;
    }
  }

  lemma NewVerdict(s: State, left: map<Id, int>)
    requires InRange(s) && NewSeen(s, left, NEW_BUCKETS, 0)
    ensures |left| == 0 <==> NewChecked(s)
    ensures |left| != 0 ==> NewViolates(s, -15)
  {
    NewEnd(s, left);
    hide Occurrences, NewPlaced, NewSeen;
    assert |left| == |left.Keys|;
    if |left| != 0 {
      var id :| id in left.Keys;
    } else {
      assert left.Keys == {};
      assert forall id | id in Untried(s) :: id !in left.Keys;
    }
  }

  // ----- What the check does not look at -----

  /** Ids are below the next one, every address in the index is that of a known id, every network in use has a
      count, and remembered collisions are few and face occupied slots. */
  ghost predicate Unchecked(s: State) {
    && (forall id | id in s.infos :: id < s.idCount)
    && (forall a | a in s.byAddr :: s.byAddr[a] in s.infos && s.infos[s.byAddr[a]].addr == a)
    && Networks(s, s.infos.Keys) <= s.counts.Keys
    && CollisionsOk(s, {})
  }

  /** Consistency is what is checked together with what is not looked at. */
  lemma ConsistentIsChecked(s: State)
    requires s.h.Valid() && InRange(s)
    ensures Consistent(s) <==> Checked(s) && Unchecked(s)
  {
    if Consistent(s) {
      ConsistentPasses(s);
    }
    if Checked(s) && Unchecked(s) {
      PassedIsConsistent(s);
    }
  }

  lemma ConsistentPasses(s: State)
    requires Consistent(s)
    ensures Checked(s) && Unchecked(s)
  {
    hide Hashing.Valid, Nearly, TablesOk, Shuffled, Counted, CollisionsOk, SizesChecked, InfosChecked, TriedChecked, NewChecked, CountsChecked;
    NearlyFacts(s, {}, {}, {});
    SizesPass(s);
    InfosPass(s);
    TablesPass(s);
    CountsPass(s);
  }

  lemma SizesPass(s: State)
    requires Consistent(s)
    ensures SizesChecked(s)
  {
    hide Hashing.Valid, Shuffled, TablesOk, Named, CollisionsOk, InfoOk;
    SizesAgree(s);
    assert Untried(s) - {} == Untried(s);
  }

  lemma NoneInNew(s: State, id: Id)
    requires TablesOk(s) && id in Tried(s)
    ensures Occurrences(s.newTable, id) == {}
  {
    forall slot | slot in s.newTable
      ensures s.newTable[slot] != id
    {
      assert NewEntryOk(s, slot, s.newTable[slot]);
    }
  }

  lemma InfosPass(s: State)
    requires Consistent(s)
    ensures InfosChecked(s)
  {
    hide Hashing.Valid, TablesOk, Counted, CollisionsOk, Occurrences;
    forall id | id in s.infos
      ensures EntryChecked(s, id, s.infos[id])
    {
      assert InfoOk(s, id, s.infos[id], {});
      if s.infos[id].inTried {
        NoneInNew(s, id);
      }
    }
  }

  lemma TablesPass(s: State)
    requires Consistent(s)
    ensures TriedChecked(s) && NewChecked(s)
  {
    hide Hashing.Valid, Shuffled, Named, Counted, CollisionsOk, Occurrences;
    forall id | id in Tried(s)
      ensures id in s.triedTable.Values
    {
      assert InfoOk(s, id, s.infos[id], {});
      assert s.triedTable[s.h.triedSlot(s.infos[id].addr)] in s.triedTable.Values;
    }
    forall slot | slot in s.newTable
      ensures NewPlaced(s, slot, s.newTable[slot])
    {
      assert NewEntryOk(s, slot, s.newTable[slot]);
    }
    forall id | id in Untried(s)
      ensures |Occurrences(s.newTable, id)| == s.infos[id].references
    {
      assert InfoOk(s, id, s.infos[id], {});
    }
  }

  lemma KnownOnly(s: State)
    ensures Untried(s) * s.infos.Keys == Untried(s) == Untried(s) - {} && Tried(s) * s.infos.Keys == Tried(s)
  {
  }

  lemma InUseIsCounted(s: State, id: Id)
    requires CountsMatch(s, Untried(s), Tried(s)) && id in s.infos
    ensures NetworkOf(s, id) in s.counts
  {
    var net := NetworkOf(s, id);
    var a, b := OfNetwork(s, Untried(s), net), OfNetwork(s, Tried(s), net);
    assert id in a || id in b;
    assert CountOf(s, net).untried == |a| && CountOf(s, net).tried == |b|;
  }

  lemma CountsPass(s: State)
    requires Consistent(s)
    ensures CountsChecked(s) && Networks(s, s.infos.Keys) <= s.counts.Keys
  {
    hide Hashing.Valid, Shuffled, Named, TablesOk, InfoOk, CollisionsOk, OfNetwork, Untried, Tried;
    KnownOnly(s);
    forall id | id in s.infos
      ensures NetworkOf(s, id) in s.counts
    {
      InUseIsCounted(s, id);
    }
    Smaller(Networks(s, s.infos.Keys), s.counts.Keys);
    assert |s.counts| == |s.counts.Keys|;
    forall net | net in s.counts
      ensures s.counts[net] == CountIn(s, s.infos.Keys, net)
    {
      assert CountOf(s, net) == s.counts[net];
    }
  }

  lemma PassedIsConsistent(s: State)
    requires s.h.Valid() && InRange(s) && Checked(s) && Unchecked(s)
    ensures Consistent(s)
  {
    hide Hashing.Valid, SizesChecked, TriedChecked, NewChecked, CountsChecked, CollisionsOk, InfoOk, Shuffled, TablesOk, Counted, Occurrences;
    PassedShuffled(s);
    PassedTables(s);
    PassedCounts(s);
  }

  lemma PassedTables(s: State)
    requires InRange(s) && TriedChecked(s) && NewChecked(s) && InfosChecked(s)
    ensures TablesOk(s) && forall id | id in s.infos :: InfoOk(s, id, s.infos[id], {})
  {
    hide Occurrences;
    forall slot | slot in s.newTable
      ensures NewEntryOk(s, slot, s.newTable[slot])
    {
      assert NewPlaced(s, slot, s.newTable[slot]);
    }
    forall id | id in s.infos
      ensures InfoOk(s, id, s.infos[id], {})
    {
      assert EntryChecked(s, id, s.infos[id]);
      if s.infos[id].inTried {
        assert id in Tried(s);
        NoneInNew(s, id);
        var slot :| slot in s.triedTable && s.triedTable[slot] == id;
        assert TriedEntryOk(s, slot, id);
      } else {
        assert id in Untried(s);
      }
    }
  }

  lemma PassedCounts(s: State)
    requires SizesChecked(s) && CountsChecked(s) && Networks(s, s.infos.Keys) <= s.counts.Keys
    ensures Counted(s, {})
  {
    hide OfNetwork, Networks, Untried, Tried;
    KnownOnly(s);
    forall net: nat
      ensures CountOf(s, net) == CountIn(s, s.infos.Keys, net)
    {
      NoneOfNetwork(s, s.infos.Keys, net);
    }
  }

  /** As many places as ids, and each id at a place of its own: every place is taken. */
  lemma PassedShuffled(s: State)
    requires SizesChecked(s) && InfosChecked(s)
    ensures Shuffled(s)
  {
    var ids := s.infos.Keys;
    assert ids == Tried(s) + Untried(s) && Tried(s) !! Untried(s);
    var places := set id | id in ids :: s.infos[id].randomPos;
    assert forall id | id in ids :: EntryChecked(s, id, s.infos[id]);
    PlacesDistinct(s, ids);
    AllPlaces(|s.random|, places);
    forall p | 0 <= p < |s.random|
      ensures s.random[p] in s.infos && s.infos[s.random[p]].randomPos == p
    {
      assert p in places;
    }
  }

  lemma {:induction false} PlacesDistinct(s: State, ids: set<Id>)
    requires ids <= s.infos.Keys && forall id | id in ids :: EntryChecked(s, id, s.infos[id])
    ensures |set id | id in ids :: s.infos[id].randomPos| == |ids|
    decreases |ids|
  {
    if ids != {} {
      var one :| one in ids;
      var rest := ids - {one};
      PlacesDistinct(s, rest);
      var a, b := set id | id in rest :: s.infos[id].randomPos, set id | id in ids :: s.infos[id].randomPos;
      assert b == a + {s.infos[one].randomPos};
      forall id | id in rest
        ensures s.infos[id].randomPos != s.infos[one].randomPos
      {
        assert EntryChecked(s, id, s.infos[id]) && EntryChecked(s, one, s.infos[one]);
      }
    }
  }

  /** The places below `n`. */
  function Below(n: nat): (r: set<int>)
    ensures |r| == n && forall p :: p in r <==> 0 <= p < n
  {
    if n == 0 then {} else Below(n - 1) + {n - 1}
  }

  lemma AllPlaces(n: nat, places: set<int>)
    requires (forall p | p in places :: 0 <= p < n) && |places| == n
    ensures forall p | 0 <= p < n :: p in places
  {
    var all := Below(n);
    assert places <= all;
    var rest := all - places;
    assert all == places + rest && |all| == |places| + |rest|;
    assert rest == {};
    forall p | 0 <= p < n
      ensures p in places
    {
      assert p in all && p !in rest;
    }
  }

  /** A stale address in the index passes the check. */
  lemma StaleAddressPasses(h: Hashing, a: Addr)
    requires h.Valid()
    ensures var s := Initial(h).(byAddr := map[a := 0]);
            InRange(s) && Checked(s) && !Consistent(s)
  {
    var s := Initial(h).(byAddr := map[a := 0]);
    assert Tried(s) == {} && Untried(s) == {} && Networks(s, s.infos.Keys) == {};
    assert a in s.byAddr && s.byAddr[a] !in s.infos;
  }

  /** So does a network in use without a count, if some other network has a count of zero. */
  lemma MissingCountPasses(h: Hashing, a: Addr, source: nat, other: nat)
    requires h.Valid() && other != h.network(a)
    ensures var slot := h.NewSlot(a, source);
            var info := Info(a, source, {}, 0, 0, 0, 0, 0, 1, false, 0);
            var s := State(h, 1, map[0 := info], map[a := 0], [0], 1, 0, map[slot := 0], map[], map[other := Count(0, 0)], {}, 1);
            InRange(s) && Checked(s) && !Consistent(s)
  {
    var slot, info := h.NewSlot(a, source), Info(a, source, {}, 0, 0, 0, 0, 0, 1, false, 0);
    var s := State(h, 1, map[0 := info], map[a := 0], [0], 1, 0, map[slot := 0], map[], map[other := Count(0, 0)], {}, 1);
    assert Tried(s) == {} && Untried(s) == {0} && Networks(s, s.infos.Keys) == {h.network(a)};
    assert Occurrences(s.newTable, 0) == {slot};
    assert OfNetwork(s, Untried(s) * s.infos.Keys, other) == {} && OfNetwork(s, Tried(s) * s.infos.Keys, other) == {};
    hide Nearly;
    if Consistent(s) {
      CountsPass(s);
    }
  }

  // ----- Every run passes -----

  lemma ConsistentInRange(s: State)
    requires Consistent(s)
    ensures InRange(s)
  {
    forall slot | slot in s.newTable
      ensures slot.bucket < NEW_BUCKETS && slot.position < BUCKET_SIZE
    {
      assert NewEntryOk(s, slot, s.newTable[slot]);
    }
    forall slot | slot in s.triedTable
      ensures slot.bucket < TRIED_BUCKETS && slot.position < BUCKET_SIZE
    {
      assert TriedEntryOk(s, slot, s.triedTable[slot]);
    }
  }

  /** After any run of operations with positive times from an empty manager, the check has nothing to report. */
  lemma RunPasses(h: Hashing, ops: seq<Op>, t: State)
    requires h.Valid() && Runs(Initial(h), ops, t)
    ensures InRange(t) && Checked(t)
  {
    hide Hashing.Valid, Nearly, Runs, InRange, Checked;
    InitialConsistent(h);
    RunKeeps(Initial(h), ops, t);
    ConsistentInRange(t);
    ConsistentPasses(t);
  }
}
