/**
 * The address manager: what it knows of each address, two tables of slots, and several redundant
 * indexes that must agree after every operation.
 *
 * A table is a map from its occupied slots.  Hashing is a parameter: it gives an address its slot in
 * the tried table, its bucket in the new table for a source, and its position in a bucket.
 */
module AddrMan {
  import opened Arithmetic
  import opened Sets

  type Addr = nat
  type Id = nat

  const NEW_BUCKETS: nat := 1024
  const TRIED_BUCKETS: nat := 256
  const BUCKET_SIZE: nat := 64
  const MAX_REFERENCES: nat := 8
  const MAX_COLLISIONS: nat := 10

  datatype Slot = Slot(bucket: nat, position: nat)

  datatype Hashing = Hashing(
    triedSlot: Addr -> Slot,
    newBucket: (Addr, nat) -> nat,
    newPosition: (Addr, nat) -> nat,
    network: Addr -> nat,
    host: Addr -> nat)
  {
    ghost predicate Valid() {
      && (forall a: Addr, source: nat :: newBucket(a, source) < NEW_BUCKETS)
      && (forall a: Addr, bucket: nat :: newPosition(a, bucket) < BUCKET_SIZE)
      && (forall a: Addr :: triedSlot(a).bucket < TRIED_BUCKETS && triedSlot(a).position < BUCKET_SIZE)
    }

    function NewSlot(a: Addr, source: nat): Slot {
      Slot(newBucket(a, source), newPosition(a, newBucket(a, source)))
    }
  }

  datatype Info = Info(
    addr: Addr, source: nat, services: set<nat>, time: int,
    lastTry: int, lastCount: int, lastSuccess: int, attempts: int,
    references: int, inTried: bool, randomPos: int)

  datatype Count = Count(untried: int, tried: int)

  type Table = map<Slot, Id>

  datatype State = State(
    h: Hashing,
    idCount: nat, infos: map<Id, Info>, byAddr: map<Addr, Id>, random: seq<Id>,
    nNew: int, nTried: int, newTable: Table, triedTable: Table,
    counts: map<nat, Count>, collisions: set<Id>, lastGood: int)

  function Initial(h: Hashing): State {
    State(h, 0, map[], map[], [], 0, 0, map[], map[], map[], {}, 1)
  }

  // ---------------------------------------------------------------------------------------------
  // Consistency

  function Occurrences(table: Table, id: Id): set<Slot> {
    set slot | slot in table && table[slot] == id
  }

  function Untried(s: State): set<Id> {
    set id | id in s.infos && !s.infos[id].inTried
  }

  function Tried(s: State): set<Id> {
    set id | id in s.infos && s.infos[id].inTried
  }

  /** The ids of a set whose addresses are of a network. */
  function OfNetwork(s: State, ids: set<Id>, net: nat): set<Id> {
    set id | id in ids && id in s.infos && s.h.network(s.infos[id].addr) == net
  }

  function CountFor(counts: map<nat, Count>, net: nat): Count {
    if net in counts then counts[net] else Count(0, 0)
  }

  function CountOf(s: State, net: nat): Count {
    CountFor(s.counts, net)
  }

  /** Addresses and ids name each other. */
  predicate Named(s: State) {
    && (forall id | id in s.infos :: id < s.idCount && s.infos[id].addr in s.byAddr && s.byAddr[s.infos[id].addr] == id)
    && (forall a | a in s.byAddr :: s.byAddr[a] in s.infos && s.infos[s.byAddr[a]].addr == a)
  }

  /** The vector of ids and their positions in it are inverse. */
  predicate Shuffled(s: State) {
    && (forall id | id in s.infos :: 0 <= s.infos[id].randomPos < |s.random| && s.random[s.infos[id].randomPos] == id)
    && (forall p | 0 <= p < |s.random| :: s.random[p] in s.infos && s.infos[s.random[p]].randomPos == p)
  }

  /** An entry of the new table stands where its address belongs in that bucket. */
  predicate NewEntryOk(s: State, slot: Slot, id: Id) {
    && id in s.infos && !s.infos[id].inTried
    && slot.bucket < NEW_BUCKETS && slot.position == s.h.newPosition(s.infos[id].addr, slot.bucket)
  }

  predicate TriedEntryOk(s: State, slot: Slot, id: Id) {
    id in s.infos && s.infos[id].inTried && slot == s.h.triedSlot(s.infos[id].addr)
  }

  /** What holds of one address: its reference count is the number of its entries in the new table, at
      least one and at most eight of them unless it is tried; a tried one stands in its slot. */
  predicate InfoOk(s: State, id: Id, info: Info, bare: set<Id>) {
    && info.references == |Occurrences(s.newTable, id)|
    && (!info.inTried ==> info.references <= MAX_REFERENCES && (id !in bare ==> info.references > 0))
    && (info.inTried ==> s.h.triedSlot(info.addr) in s.triedTable && s.triedTable[s.h.triedSlot(info.addr)] == id)
    && (info.inTried ==> info.lastSuccess > 0)
    && info.lastTry >= 0 && info.lastSuccess >= 0
  }

  predicate TablesOk(s: State) {
    && (forall slot | slot in s.newTable :: NewEntryOk(s, slot, s.newTable[slot]))
    && (forall slot | slot in s.triedTable :: TriedEntryOk(s, slot, s.triedTable[slot]))
  }

  /** The counters are those of the given sets of ids, in all and for each network. */
  ghost predicate CountsMatch(s: State, untried: set<Id>, tried: set<Id>) {
    && s.nNew == |untried| && s.nTried == |tried|
    && (forall net: nat :: CountOf(s, net).untried == |OfNetwork(s, untried, net)|)
    && (forall net: nat :: CountOf(s, net).tried == |OfNetwork(s, tried, net)|)
  }

  /** The counters are exact, where the ids in `uncounted` do not count as new. */
  ghost predicate Counted(s: State, uncounted: set<Id>) {
    CountsMatch(s, Untried(s) - uncounted, Tried(s))
  }

  /** Remembered collisions are few, of known ids, and each faces an occupied slot, or one of `holes`. */
  predicate CollisionsOk(s: State, holes: set<Slot>) {
    && |s.collisions| <= MAX_COLLISIONS
    && (forall id | id in s.collisions :: id < s.idCount)
    && (forall id | id in s.collisions && id in s.infos ::
          s.h.triedSlot(s.infos[id].addr) in s.triedTable || s.h.triedSlot(s.infos[id].addr) in holes)
  }

  /** Consistent, but for ids in `bare` that have no entry yet or any more, ids in `uncounted` that are
      on their way between the tables, and slots in `holes` that are about to be filled. */
  ghost predicate Nearly(s: State, bare: set<Id>, uncounted: set<Id>, holes: set<Slot>) {
    && s.h.Valid() && Named(s) && Shuffled(s) && TablesOk(s)
    && (forall id | id in s.infos :: InfoOk(s, id, s.infos[id], bare))
    && Counted(s, uncounted) && CollisionsOk(s, holes)
  }

  ghost predicate Consistent(s: State) {
    Nearly(s, {}, {}, {})
  }

  // ---------------------------------------------------------------------------------------------
  // Steps

  function Bumped(counts: map<nat, Count>, net: nat, untried: int, tried: int): map<nat, Count> {
    var c := CountFor(counts, net);
    counts[net := Count(c.untried + untried, c.tried + tried)]
  }

  function NetworkOf(s: State, id: Id): nat
    requires id in s.infos
  {
    s.h.network(s.infos[id].addr)
  }

  /** A new entry, not yet in any table. */
  function Created(s: State, addr: Addr, source: nat, services: set<nat>, time: int): State {
    var id := s.idCount;
    s.(idCount := id + 1,
       infos := s.infos[id := Info(addr, source, services, time, 0, 0, 0, 0, 0, false, |s.random|)],
       byAddr := s.byAddr[addr := id], random := s.random + [id],
       nNew := s.nNew + 1, counts := Bumped(s.counts, s.h.network(addr), 1, 0))
  }

  /** Exchange two places of the random vector. */
  function Swapped(s: State, p: nat, q: nat): State
    requires p < |s.random| && q < |s.random| && s.random[p] in s.infos && s.random[q] in s.infos
  {
    if p == q then s
    else
      var i, j := s.random[p], s.random[q];
      var infos := s.infos[i := s.infos[i].(randomPos := q)];
      s.(infos := if j in infos then infos[j := infos[j].(randomPos := p)] else infos,
         random := s.random[p := j][q := i])
  }

  /** Forget an entry that is in no table. */
  function Deleted(s: State, id: Id): State
    requires Shuffled(s) && id in s.infos
  {
    var t := Swapped(s, s.infos[id].randomPos, |s.random| - 1);
    t.(random := t.random[..|t.random| - 1], byAddr := t.byAddr - {s.infos[id].addr}, infos := t.infos - {id},
       nNew := t.nNew - 1, counts := Bumped(t.counts, NetworkOf(s, id), -1, 0))
  }

  function WithInfo(s: State, id: Id, info: Info): State {
    s.(infos := s.infos[id := info])
  }

  lemma NetAdd(s: State, ids: set<Id>, id: Id, net: nat)
    requires id in s.infos && id !in ids
    ensures |OfNetwork(s, ids + {id}, net)| == |OfNetwork(s, ids, net)| + (if NetworkOf(s, id) == net then 1 else 0)
  {
    var a, b := OfNetwork(s, ids, net), OfNetwork(s, ids + {id}, net);
    if NetworkOf(s, id) == net {
      assert b == a + {id};
    } else {
      assert b == a;
    }
  }

  /** Only the addresses of the ids matter. */
  lemma NetSame(s: State, t: State, ids: set<Id>, net: nat)
    requires s.h == t.h
    requires forall id | id in ids :: id in s.infos && id in t.infos && s.infos[id].addr == t.infos[id].addr
    ensures OfNetwork(s, ids, net) == OfNetwork(t, ids, net)
  {
  }

  ghost predicate SameAddrs(s: State, t: State, ids: set<Id>) {
    s.h == t.h && forall id | id in ids :: id in s.infos && id in t.infos && s.infos[id].addr == t.infos[id].addr
  }

  /** Counters after one id joins or leaves the new ones, or the tried ones. */
  lemma CountsNewPlus(s: State, t: State, id: Id, untried: set<Id>, tried: set<Id>)
    requires CountsMatch(s, untried, tried) && id in t.infos && id !in untried
    requires SameAddrs(s, t, untried) && SameAddrs(s, t, tried)
    requires t.nNew == s.nNew + 1 && t.nTried == s.nTried && t.counts == Bumped(s.counts, NetworkOf(t, id), 1, 0)
    ensures CountsMatch(t, untried + {id}, tried)
  {
    hide Hashing.Valid, OfNetwork;
    forall net: nat
      ensures CountOf(t, net).untried == |OfNetwork(t, untried + {id}, net)|
      ensures CountOf(t, net).tried == |OfNetwork(t, tried, net)|
    {
      NetAdd(t, untried, id, net);
      NetSame(s, t, untried, net);
      NetSame(s, t, tried, net);
    }
  }

  lemma CountsNewMinus(s: State, t: State, id: Id, untried: set<Id>, tried: set<Id>)
    requires CountsMatch(s, untried + {id}, tried) && id in s.infos && id !in untried
    requires SameAddrs(s, t, untried) && SameAddrs(s, t, tried)
    requires t.nNew == s.nNew - 1 && t.nTried == s.nTried && t.counts == Bumped(s.counts, NetworkOf(s, id), -1, 0)
    ensures CountsMatch(t, untried, tried)
  {
    hide Hashing.Valid, OfNetwork;
    forall net: nat
      ensures CountOf(t, net).untried == |OfNetwork(t, untried, net)|
      ensures CountOf(t, net).tried == |OfNetwork(t, tried, net)|
    {
      NetAdd(s, untried, id, net);
      NetSame(s, t, untried, net);
      NetSame(s, t, tried, net);
    }
  }

  lemma CountsTriedPlus(s: State, t: State, id: Id, untried: set<Id>, tried: set<Id>)
    requires CountsMatch(s, untried, tried) && id in t.infos && id !in tried
    requires SameAddrs(s, t, untried) && SameAddrs(s, t, tried)
    requires t.nNew == s.nNew && t.nTried == s.nTried + 1 && t.counts == Bumped(s.counts, NetworkOf(t, id), 0, 1)
    ensures CountsMatch(t, untried, tried + {id})
  {
    hide Hashing.Valid, OfNetwork;
    forall net: nat
      ensures CountOf(t, net).untried == |OfNetwork(t, untried, net)|
      ensures CountOf(t, net).tried == |OfNetwork(t, tried + {id}, net)|
    {
      NetAdd(t, tried, id, net);
      NetSame(s, t, untried, net);
      NetSame(s, t, tried, net);
    }
  }

  lemma CountsTriedMinus(s: State, t: State, id: Id, untried: set<Id>, tried: set<Id>)
    requires CountsMatch(s, untried, tried + {id}) && id in s.infos && id !in tried
    requires SameAddrs(s, t, untried) && SameAddrs(s, t, tried)
    requires t.nNew == s.nNew && t.nTried == s.nTried - 1 && t.counts == Bumped(s.counts, NetworkOf(s, id), 0, -1)
    ensures CountsMatch(t, untried, tried)
  {
    hide Hashing.Valid, OfNetwork;
    forall net: nat
      ensures CountOf(t, net).untried == |OfNetwork(t, untried, net)|
      ensures CountOf(t, net).tried == |OfNetwork(t, tried, net)|
    {
      NetAdd(s, tried, id, net);
      NetSame(s, t, untried, net);
      NetSame(s, t, tried, net);
    }
  }

  lemma CountsSame(s: State, t: State, untried: set<Id>, tried: set<Id>)
    requires CountsMatch(s, untried, tried) && SameAddrs(s, t, untried) && SameAddrs(s, t, tried)
    requires t.nNew == s.nNew && t.nTried == s.nTried && t.counts == s.counts
    ensures CountsMatch(t, untried, tried)
  {
    hide Hashing.Valid, OfNetwork;
    forall net: nat
      ensures CountOf(t, net).untried == |OfNetwork(t, untried, net)|
      ensures CountOf(t, net).tried == |OfNetwork(t, tried, net)|
    {
      NetSame(s, t, untried, net);
      NetSame(s, t, tried, net);
    }
  }

  // ---------------------------------------------------------------------------------------------
  // What each step keeps

  /** The part of what is known of an address that consistency is about, besides its random place. */
  predicate Alike(i: Info, j: Info) {
    && i.addr == j.addr && i.inTried == j.inTried && i.references == j.references
    && i.lastTry == j.lastTry && i.lastSuccess == j.lastSuccess
  }

  /** Same tables, same addresses: what holds of the tables and of an address goes over. */
  lemma TablesFrame(s: State, t: State)
    requires s.h == t.h && s.newTable == t.newTable && s.triedTable == t.triedTable && TablesOk(s)
    requires forall slot | slot in s.newTable ::
               var id := s.newTable[slot]; id in s.infos && id in t.infos && Alike(s.infos[id], t.infos[id])
    requires forall slot | slot in s.triedTable ::
               var id := s.triedTable[slot]; id in s.infos && id in t.infos && Alike(s.infos[id], t.infos[id])
    ensures TablesOk(t)
  {
    forall slot | slot in t.newTable
      ensures NewEntryOk(t, slot, t.newTable[slot])
    {
      assert NewEntryOk(s, slot, s.newTable[slot]);
    }
    forall slot | slot in t.triedTable
      ensures TriedEntryOk(t, slot, t.triedTable[slot])
    {
      assert TriedEntryOk(s, slot, s.triedTable[slot]);
    }
  }

  lemma InfoFrame(s: State, t: State, id: Id, i: Info, j: Info, bare: set<Id>)
    requires s.h == t.h && s.newTable == t.newTable && s.triedTable == t.triedTable && Alike(i, j) && InfoOk(s, id, i, bare)
    ensures InfoOk(t, id, j, bare)
  {
  }

  /** What the tables mention is known. */
  lemma TablesKnown(s: State, slot: Slot)
    requires TablesOk(s)
    ensures slot in s.newTable ==> s.newTable[slot] in s.infos && !s.infos[s.newTable[slot]].inTried
    ensures slot in s.triedTable ==> s.triedTable[slot] in s.infos && s.infos[s.triedTable[slot]].inTried
  {
    assert slot in s.newTable ==> NewEntryOk(s, slot, s.newTable[slot]);
    assert slot in s.triedTable ==> TriedEntryOk(s, slot, s.triedTable[slot]);
  }

  lemma CreatedKeeps(s: State, addr: Addr, source: nat, services: set<nat>, time: int)
    requires Consistent(s) && addr !in s.byAddr
    ensures Nearly(Created(s, addr, source, services, time), {s.idCount}, {}, {})
  {
    hide Hashing.Valid, InfoOk, CountsMatch, Named, Shuffled, TablesOk, CollisionsOk, Counted, NewEntryOk, TriedEntryOk;
    var t, id := Created(s, addr, source, services, time), s.idCount;
    CreatedIndexes(s, addr, source, services, time);
    forall slot: Slot
      ensures slot in s.newTable ==> s.newTable[slot] in s.infos
      ensures slot in s.triedTable ==> s.triedTable[slot] in s.infos
    {
      TablesKnown(s, slot);
    }
    TablesFrame(s, t);
    forall i | i in t.infos
      ensures InfoOk(t, i, t.infos[i], {id})
    {
      if i == id {
        CreatedInfo(s, t, id, t.infos[id]);
      } else {
        InfoFrame(s, t, i, s.infos[i], t.infos[i], {});
        MoreBare(t, i, t.infos[i], {}, {id});
      }
    }
    CreatedCounts(s, addr, source, services, time);
  }

  lemma CreatedIndexes(s: State, addr: Addr, source: nat, services: set<nat>, time: int)
    requires Named(s) && Shuffled(s) && CollisionsOk(s, {}) && addr !in s.byAddr
    ensures s.idCount !in s.infos
    ensures var t := Created(s, addr, source, services, time); Named(t) && Shuffled(t) && CollisionsOk(t, {})
  {
    CreatedNamed(s, addr, source, services, time);
    CreatedShuffled(s, addr, source, services, time);
    hide Hashing.Valid, Named, Shuffled;
  }

  lemma CreatedNamed(s: State, addr: Addr, source: nat, services: set<nat>, time: int)
    requires Named(s) && addr !in s.byAddr
    ensures s.idCount !in s.infos && Named(Created(s, addr, source, services, time))
  {
  }

  lemma CreatedShuffled(s: State, addr: Addr, source: nat, services: set<nat>, time: int)
    requires Shuffled(s) && s.idCount !in s.infos
    ensures Shuffled(Created(s, addr, source, services, time))
  {
    var t, id := Created(s, addr, source, services, time), s.idCount;
    forall p | 0 <= p < |t.random|
      ensures t.random[p] in t.infos && t.infos[t.random[p]].randomPos == p
    {
      assert p < |s.random| ==> t.random[p] == s.random[p] && s.random[p] in s.infos;
    }
    forall i | i in t.infos
      ensures 0 <= t.infos[i].randomPos < |t.random| && t.random[t.infos[i].randomPos] == i
    {
      assert i != id ==> i in s.infos && t.infos[i] == s.infos[i];
    }
  }

  lemma MoreBare(s: State, id: Id, info: Info, a: set<Id>, b: set<Id>)
    requires InfoOk(s, id, info, a) && a <= b
    ensures InfoOk(s, id, info, b)
  {
  }

  lemma CreatedInfo(s: State, t: State, id: Id, info: Info)
    requires t.newTable == s.newTable && forall slot | slot in s.newTable :: s.newTable[slot] != id
    requires !info.inTried && info.references == 0 && info.lastTry == 0 && info.lastSuccess == 0
    ensures InfoOk(t, id, info, {id})
  {
    assert Occurrences(t.newTable, id) == {};
  }

  lemma CreatedCounts(s: State, addr: Addr, source: nat, services: set<nat>, time: int)
    requires Counted(s, {}) && s.idCount !in s.infos
    ensures Counted(Created(s, addr, source, services, time), {})
  {
    hide Hashing.Valid, CountsMatch, OfNetwork, CountOf;
    var t, id := Created(s, addr, source, services, time), s.idCount;
    assert Untried(s) - {} == Untried(s) && Untried(t) - {} == Untried(s) + {id} && Tried(t) == Tried(s);
    CountsNewPlus(s, t, id, Untried(s), Tried(s));
  }

  /** Without the swap: the last id takes the place of the one that goes. */
  lemma DeletedIs(s: State, id: Id)
    requires Shuffled(s) && id in s.infos
    ensures |s.random| > 0 && s.random[|s.random| - 1] in s.infos
    ensures var p, n := s.infos[id].randomPos, |s.random| - 1;
            var j, t := s.random[n], Deleted(s, id);
            && 0 <= p <= n && s.random[p] == id && s.random[n] in s.infos
            && t.random == s.random[p := j][..n]
            && t.infos == s.infos[j := s.infos[j].(randomPos := p)] - {id}
            && (j == id <==> p == n)
  {
    var p, n := s.infos[id].randomPos, |s.random| - 1;
    var j, t := s.random[n], Deleted(s, id);
    assert s.random[p] == id && s.infos[j].randomPos == n;
    if p != n {
      assert s.random[p := j][n := id][..n] == s.random[p := j][..n];
    }
  }

  lemma DeletedShuffled(s: State, id: Id)
    requires Shuffled(s) && id in s.infos
    ensures Shuffled(Deleted(s, id))
  {
    DeletedIs(s, id);
    hide Hashing.Valid, Deleted;
    var p, n := s.infos[id].randomPos, |s.random| - 1;
    var j, t := s.random[n], Deleted(s, id);
    forall k | 0 <= k < n
      ensures t.random[k] in t.infos && t.infos[t.random[k]].randomPos == k
    {
      assert s.infos[s.random[k]].randomPos == k && s.infos[j].randomPos == n;
    }
    forall i | i in t.infos
      ensures 0 <= t.infos[i].randomPos < n && t.random[t.infos[i].randomPos] == i
    {
      assert s.random[s.infos[i].randomPos] == i;
    }
  }

  lemma DeletedFrame(s: State, id: Id)
    requires Shuffled(s) && id in s.infos
    ensures var t := Deleted(s, id);
            && t.h == s.h && t.newTable == s.newTable && t.triedTable == s.triedTable
            && t.collisions == s.collisions && t.idCount == s.idCount && t.lastGood == s.lastGood
            && t.byAddr == s.byAddr - {s.infos[id].addr}
            && t.infos.Keys == s.infos.Keys - {id}
            && forall i | i in s.infos && i != id :: Alike(s.infos[i], t.infos[i])
  {
    DeletedIs(s, id);
    hide Hashing.Valid, Shuffled;
  }

  lemma DeletedNamed(s: State, id: Id)
    requires Shuffled(s) && id in s.infos && Named(s)
    ensures Named(Deleted(s, id))
  {
    DeletedFrame(s, id);
    hide Hashing.Valid, Shuffled, Deleted;
    var t := Deleted(s, id);
    forall i | i in t.infos
      ensures i < t.idCount && t.infos[i].addr in t.byAddr && t.byAddr[t.infos[i].addr] == i
    {
      assert i in s.infos && i != id && Alike(s.infos[i], t.infos[i]);
    }
    forall a | a in t.byAddr
      ensures t.byAddr[a] in t.infos && t.infos[t.byAddr[a]].addr == a
    {
      var i := s.byAddr[a];
      assert i in s.infos && i != id && Alike(s.infos[i], t.infos[i]);
    }
  }

  lemma DeletedCounts(s: State, id: Id, uncounted: set<Id>)
    requires Shuffled(s) && id in s.infos && !s.infos[id].inTried && id !in uncounted && Counted(s, uncounted)
    ensures Counted(Deleted(s, id), uncounted)
  {
    hide Hashing.Valid, CountsMatch, OfNetwork, CountOf, Shuffled, Untried, Tried;
    DeletedSets(s, id);
    var t, u := Deleted(s, id), Untried(s) - uncounted - {id};
    assert u + {id} == Untried(s) - uncounted && Untried(t) - uncounted == u;
    CountsNewMinus(s, t, id, u, Tried(s));
  }

  lemma DeletedSets(s: State, id: Id)
    requires Shuffled(s) && id in s.infos && !s.infos[id].inTried
    ensures var t := Deleted(s, id);
            && id in Untried(s) && Untried(t) == Untried(s) - {id} && Tried(t) == Tried(s)
            && SameAddrs(s, t, Untried(s) - {id}) && SameAddrs(s, t, Tried(s))
            && t.nNew == s.nNew - 1 && t.nTried == s.nTried && t.counts == Bumped(s.counts, NetworkOf(s, id), -1, 0)
  {
    DeletedIs(s, id);
    hide Hashing.Valid, Shuffled;
  }

  /** Forgetting an entry without references. */
  lemma DeletedKeeps(s: State, id: Id, bare: set<Id>, uncounted: set<Id>, holes: set<Slot>)
    requires Nearly(s, bare, uncounted, holes) && id in s.infos && !s.infos[id].inTried && s.infos[id].references == 0 && id !in uncounted
    ensures Nearly(Deleted(s, id), bare - {id}, uncounted, holes)
    ensures Deleted(s, id).newTable == s.newTable && Deleted(s, id).triedTable == s.triedTable
    ensures Deleted(s, id).infos.Keys == s.infos.Keys - {id}
    ensures forall i | i in s.infos && i != id :: Alike(s.infos[i], Deleted(s, id).infos[i])
  {
    hide Hashing.Valid, InfoOk, CountsMatch, Named, Shuffled, TablesOk, CollisionsOk, Counted, NewEntryOk, TriedEntryOk, Deleted;
    var t := Deleted(s, id);
    DeletedFrame(s, id);
    DeletedShuffled(s, id);
    DeletedNamed(s, id);
    DeletedCounts(s, id, uncounted);
    NoOccurrence(s, id, s.infos[id], bare);
    forall slot: Slot
      ensures slot in s.newTable ==> s.newTable[slot] in s.infos && s.newTable[slot] != id
      ensures slot in s.triedTable ==> s.triedTable[slot] in s.infos && s.triedTable[slot] != id
    {
      TablesKnown(s, slot);
    }
    TablesFrame(s, t);
    forall i | i in t.infos
      ensures InfoOk(t, i, t.infos[i], bare - {id})
    {
      LessBare(s, i, s.infos[i], bare, id);
      InfoFrame(s, t, i, s.infos[i], t.infos[i], bare - {id});
    }
    CollisionsFrame(s, t, holes, holes);
  }

  lemma NoOccurrence(s: State, id: Id, info: Info, bare: set<Id>)
    requires InfoOk(s, id, info, bare) && info.references == 0
    ensures forall slot | slot in s.newTable :: s.newTable[slot] != id
  {
    assert Occurrences(s.newTable, id) == {};
    forall slot | slot in s.newTable
      ensures s.newTable[slot] != id
    {
      assert s.newTable[slot] == id ==> slot in Occurrences(s.newTable, id);
    }
  }

  lemma LessBare(s: State, i: Id, info: Info, bare: set<Id>, id: Id)
    requires InfoOk(s, i, info, bare) && i != id
    ensures InfoOk(s, i, info, bare - {id})
  {
  }

  lemma CollisionsFrame(s: State, t: State, holes: set<Slot>, more: set<Slot>)
    requires CollisionsOk(s, holes) && t.h == s.h && t.collisions <= s.collisions && t.idCount >= s.idCount
    requires forall slot | slot in s.triedTable || slot in holes :: slot in t.triedTable || slot in more
    requires forall id | id in t.infos && id in s.collisions :: id in s.infos && t.infos[id].addr == s.infos[id].addr
    ensures CollisionsOk(t, more)
  {
    Smaller(t.collisions, s.collisions);
  }

  lemma Smaller<T>(a: set<T>, b: set<T>)
    requires a <= b
    ensures |a| <= |b|
  {
    assert b == a + (b - a);
  }

  // ---------------------------------------------------------------------------------------------
  // Steps on the tables

  /** Take an entry out of the new table. */
  function Freed(s: State, slot: Slot): State
    requires slot in s.newTable && s.newTable[slot] in s.infos
  {
    var id := s.newTable[slot];
    s.(newTable := s.newTable - {slot}, infos := s.infos[id := s.infos[id].(references := s.infos[id].references - 1)])
  }

  /** Put an id into an empty slot of the new table. */
  function Filled(s: State, slot: Slot, id: Id): State
    requires id in s.infos
  {
    s.(newTable := s.newTable[slot := id], infos := s.infos[id := s.infos[id].(references := s.infos[id].references + 1)])
  }

  lemma OccurrencesMinus(table: Table, slot: Slot, id: Id)
    requires slot in table
    ensures |Occurrences(table - {slot}, id)| == |Occurrences(table, id)| - (if table[slot] == id then 1 else 0)
  {
    var a, b := Occurrences(table - {slot}, id), Occurrences(table, id);
    if table[slot] == id {
      assert b == a + {slot};
    } else {
      assert b == a;
    }
  }

  lemma OccurrencesPlus(table: Table, slot: Slot, id: Id, i: Id)
    requires slot !in table
    ensures |Occurrences(table[slot := id], i)| == |Occurrences(table, i)| + (if id == i then 1 else 0)
  {
    OccurrencesMinus(table[slot := id], slot, i);
    assert table[slot := id] - {slot} == table;
  }

  /** Only reference counts changed: all but the tables goes over. */
  lemma ReferencesFrame(s: State, t: State, uncounted: set<Id>, holes: set<Slot>)
    requires Named(s) && Shuffled(s) && Counted(s, uncounted) && CollisionsOk(s, holes)
    requires t == s.(newTable := t.newTable, infos := t.infos) && t.infos.Keys == s.infos.Keys
    requires forall i | i in s.infos :: t.infos[i] == s.infos[i].(references := t.infos[i].references)
    ensures Named(t) && Shuffled(t) && Counted(t, uncounted) && CollisionsOk(t, holes)
  {
    IndexFrame(s, t);
    hide Hashing.Valid, CountsMatch, CollisionsOk, Named, Shuffled;
    assert Untried(t) == Untried(s) && Tried(t) == Tried(s);
    CountsSame(s, t, Untried(s) - uncounted, Tried(s));
    CollisionsFrame(s, t, holes, holes);
  }

  /** Same addresses, same places: the indexes go over. */
  lemma IndexFrame(s: State, t: State)
    requires Named(s) && Shuffled(s) && t.byAddr == s.byAddr && t.random == s.random && t.idCount == s.idCount
    requires t.infos.Keys == s.infos.Keys
    requires forall i | i in s.infos :: t.infos[i].addr == s.infos[i].addr && t.infos[i].randomPos == s.infos[i].randomPos
    ensures Named(t) && Shuffled(t)
  {
    assert Named(t) by {
      hide Hashing.Valid, Shuffled;
    }
    assert Shuffled(t) by {
      hide Hashing.Valid, Named;
    }
  }

  lemma FreedKeeps(s: State, slot: Slot, bare: set<Id>, uncounted: set<Id>, holes: set<Slot>)
    requires Nearly(s, bare, uncounted, holes) && slot in s.newTable
    ensures s.newTable[slot] in s.infos && !s.infos[s.newTable[slot]].inTried && s.infos[s.newTable[slot]].references > 0
    ensures Nearly(Freed(s, slot), bare + {s.newTable[slot]}, uncounted, holes)
  {
    hide Hashing.Valid, CountsMatch, Named, Shuffled, CollisionsOk, Counted, Occurrences;
    TablesKnown(s, slot);
    var id, t := s.newTable[slot], Freed(s, slot);
    OccurrencesMinus(s.newTable, slot, id);
    ReferencesFrame(s, t, uncounted, holes);
    forall i | i in t.infos
      ensures InfoOk(t, i, t.infos[i], bare + {id})
    {
      assert InfoOk(s, i, s.infos[i], bare);
      OccurrencesMinus(s.newTable, slot, i);
    }
    assert InfoOk(s, id, s.infos[id], bare);
    forall k | k in t.newTable
      ensures NewEntryOk(t, k, t.newTable[k])
    {
      assert NewEntryOk(s, k, s.newTable[k]);
    }
    forall k | k in t.triedTable
      ensures TriedEntryOk(t, k, t.triedTable[k])
    {
      assert TriedEntryOk(s, k, s.triedTable[k]);
    }
  }

  lemma FilledKeeps(s: State, slot: Slot, id: Id, bare: set<Id>, uncounted: set<Id>, holes: set<Slot>)
    requires Nearly(s, bare, uncounted, holes) && slot !in s.newTable && id in s.infos && NewEntryOk(s, slot, id)
    requires s.infos[id].references < MAX_REFERENCES
    ensures Nearly(Filled(s, slot, id), bare - {id}, uncounted, holes)
  {
    hide Hashing.Valid, CountsMatch, Named, Shuffled, CollisionsOk, Counted, Occurrences;
    var t := Filled(s, slot, id);
    ReferencesFrame(s, t, uncounted, holes);
    forall i | i in t.infos
      ensures InfoOk(t, i, t.infos[i], bare - {id})
    {
      assert InfoOk(s, i, s.infos[i], bare);
      OccurrencesPlus(s.newTable, slot, id, i);
    }
    forall k | k in t.newTable
      ensures NewEntryOk(t, k, t.newTable[k])
    {
      assert k != slot ==> NewEntryOk(s, k, s.newTable[k]);
    }
    forall k | k in t.triedTable
      ensures TriedEntryOk(t, k, t.triedTable[k])
    {
      assert TriedEntryOk(s, k, s.triedTable[k]);
    }
  }

  /** Clear a slot of the new table, forgetting an address that thereby loses its last entry. */
  function Cleared(s: State, slot: Slot): State
    requires Shuffled(s) && (slot in s.newTable ==> s.newTable[slot] in s.infos)
  {
    if slot !in s.newTable then s
    else
      var t, id := Freed(s, slot), s.newTable[slot];
      IndexSame(s, t, id);
      if t.infos[id].references == 0 then Deleted(t, id) else t
  }

  lemma IndexSame(s: State, t: State, id: Id)
    requires Shuffled(s) && id in s.infos && t.random == s.random
    requires t.infos.Keys == s.infos.Keys && forall i | i in s.infos :: t.infos[i].randomPos == s.infos[i].randomPos
    ensures Shuffled(t)
  {
  }

  /** `t` differs from `s` at most in having forgotten the address in a slot of the new table. */
  ghost predicate AtMostForgets(s: State, t: State, slot: Slot) {
    && slot !in t.newTable && t.triedTable == s.triedTable
    && t.h == s.h && t.idCount == s.idCount && t.collisions == s.collisions && t.lastGood == s.lastGood
    && (forall i | i in t.infos :: i in s.infos && t.infos[i].addr == s.infos[i].addr)
    && (forall i | i in s.infos && (slot in s.newTable ==> i != s.newTable[slot]) :: i in t.infos && Alike(s.infos[i], t.infos[i]))
  }

  lemma ClearedForgets(s: State, slot: Slot)
    requires Shuffled(s) && (slot in s.newTable ==> s.newTable[slot] in s.infos)
    ensures AtMostForgets(s, Cleared(s, slot), slot)
  {
    hide Hashing.Valid, Shuffled, Deleted;
    if slot in s.newTable {
      var t, id := Freed(s, slot), s.newTable[slot];
      IndexSame(s, t, id);
      DeletedFrame(t, id);
    }
  }

  /** Clearing keeps everything. */
  lemma ClearedKeeps(s: State, slot: Slot, bare: set<Id>, uncounted: set<Id>, holes: set<Slot>)
    requires Nearly(s, bare, uncounted, holes) && (slot in s.newTable ==> s.newTable[slot] !in uncounted)
    ensures slot in s.newTable ==> s.newTable[slot] in s.infos
    ensures Nearly(Cleared(s, slot), bare, uncounted, holes) && AtMostForgets(s, Cleared(s, slot), slot)
  {
    hide Hashing.Valid, Nearly, Shuffled, TablesOk, Deleted, AtMostForgets, Named, Counted, CollisionsOk;
    NearlyFacts(s, bare, uncounted, holes);
    TablesKnown(s, slot);
    ClearedForgets(s, slot);
    if slot in s.newTable {
      var t, id := Freed(s, slot), s.newTable[slot];
      FreedKeeps(s, slot, bare, uncounted, holes);
      NearlyFacts(t, bare + {id}, uncounted, holes);
      if t.infos[id].references == 0 {
        DeletedKeeps(t, id, bare + {id}, uncounted, holes);
        MoreBareAll(Deleted(t, id), bare + {id} - {id}, bare, uncounted, holes);
      } else {
        FreedStays(t, id, bare, uncounted, holes);
      }
    }
  }

  lemma NearlyFacts(s: State, bare: set<Id>, uncounted: set<Id>, holes: set<Slot>)
    requires Nearly(s, bare, uncounted, holes)
    ensures Shuffled(s) && TablesOk(s) && Named(s) && Counted(s, uncounted) && CollisionsOk(s, holes)
  {
  }

  lemma MoreBareAll(s: State, a: set<Id>, b: set<Id>, uncounted: set<Id>, holes: set<Slot>)
    requires Nearly(s, a, uncounted, holes) && a <= b
    ensures Nearly(s, b, uncounted, holes)
  {
    hide Hashing.Valid, CountsMatch, Named, Shuffled, CollisionsOk, Counted, TablesOk, InfoOk;
    forall i | i in s.infos
      ensures InfoOk(s, i, s.infos[i], b)
    {
      MoreBare(s, i, s.infos[i], a, b);
    }
  }

  /** An address that still has entries need not be excepted. */
  lemma FreedStays(s: State, id: Id, bare: set<Id>, uncounted: set<Id>, holes: set<Slot>)
    requires Nearly(s, bare + {id}, uncounted, holes) && id in s.infos && s.infos[id].references > 0
    ensures Nearly(s, bare, uncounted, holes)
  {
    hide Hashing.Valid, CountsMatch, Named, Shuffled, CollisionsOk, Counted, TablesOk, Occurrences;
    forall i | i in s.infos
      ensures InfoOk(s, i, s.infos[i], bare)
    {
      assert InfoOk(s, i, s.infos[i], bare + {id});
    }
  }

  // ---------------------------------------------------------------------------------------------
  // From new to tried

  function WithoutId(table: Table, id: Id): Table {
    map slot | slot in table && table[slot] != id :: table[slot]
  }

  /** All entries of an address leave the new table, and it no longer counts as new. */
  function Removed(s: State, id: Id): State
    requires id in s.infos
  {
    s.(newTable := WithoutId(s.newTable, id), infos := s.infos[id := s.infos[id].(references := 0)],
       nNew := s.nNew - 1, counts := Bumped(s.counts, NetworkOf(s, id), -1, 0))
  }

  /** A tried address leaves its slot. */
  function Demoted(s: State, slot: Slot): State
    requires slot in s.triedTable && s.triedTable[slot] in s.infos
  {
    var id := s.triedTable[slot];
    s.(triedTable := s.triedTable - {slot}, infos := s.infos[id := s.infos[id].(inTried := false)],
       nTried := s.nTried - 1, counts := Bumped(s.counts, NetworkOf(s, id), 0, -1))
  }

  /** It gets an entry in the new table and counts as new again. */
  function Entered(s: State, slot: Slot, id: Id): State
    requires id in s.infos
  {
    s.(newTable := s.newTable[slot := id], infos := s.infos[id := s.infos[id].(references := 1)],
       nNew := s.nNew + 1, counts := Bumped(s.counts, NetworkOf(s, id), 1, 0))
  }

  /** The address takes its slot in the tried table. */
  function Promoted(s: State, id: Id): State
    requires id in s.infos
  {
    s.(triedTable := s.triedTable[s.h.triedSlot(s.infos[id].addr) := id], infos := s.infos[id := s.infos[id].(inTried := true)],
       nTried := s.nTried + 1, counts := Bumped(s.counts, NetworkOf(s, id), 0, 1))
  }

  lemma OccurrencesWithout(table: Table, id: Id, i: Id)
    ensures Occurrences(WithoutId(table, id), i) == if i == id then {} else Occurrences(table, i)
  {
  }

  lemma RemovedKeeps(s: State, id: Id)
    requires Consistent(s) && id in s.infos && !s.infos[id].inTried
    ensures Nearly(Removed(s, id), {id}, {id}, {})
  {
    hide Hashing.Valid, CountsMatch, Named, Shuffled, CollisionsOk, Occurrences, TablesOk, InfoOk, Counted;
    var t := Removed(s, id);
    IndexFrame(s, t);
    CollisionsFrame(s, t, {}, {});
    forall i | i in t.infos
      ensures InfoOk(t, i, t.infos[i], {id})
    {
      RemovedInfo(s, id, i);
    }
    RemovedTables(s, id);
    RemovedCounts(s, id);
  }

  lemma RemovedInfo(s: State, id: Id, i: Id)
    requires id in s.infos && i in s.infos && InfoOk(s, i, s.infos[i], {}) && !s.infos[id].inTried
    ensures var t := Removed(s, id); InfoOk(t, i, t.infos[i], {id})
  {
    OccurrencesWithout(s.newTable, id, i);
  }

  lemma RemovedTables(s: State, id: Id)
    requires id in s.infos && TablesOk(s)
    ensures TablesOk(Removed(s, id))
  {
    var t := Removed(s, id);
    forall k | k in t.newTable
      ensures NewEntryOk(t, k, t.newTable[k])
    {
      assert NewEntryOk(s, k, s.newTable[k]);
    }
    forall k | k in t.triedTable
      ensures TriedEntryOk(t, k, t.triedTable[k])
    {
      assert TriedEntryOk(s, k, s.triedTable[k]);
    }
  }

  lemma RemovedCounts(s: State, id: Id)
    requires id in s.infos && !s.infos[id].inTried && Counted(s, {})
    ensures Counted(Removed(s, id), {id})
  {
    hide Hashing.Valid, CountsMatch;
    var t, u := Removed(s, id), Untried(s) - {id};
    assert Untried(s) - {} == u + {id} && Untried(t) - {id} == u && Tried(t) == Tried(s);
    CountsNewMinus(s, t, id, u, Tried(s));
  }

  lemma DemotedKeeps(s: State, slot: Slot, id: Id)
    requires Nearly(s, {id}, {id}, {}) && slot in s.triedTable
    ensures s.triedTable[slot] in s.infos && s.infos[s.triedTable[slot]].inTried && s.infos[s.triedTable[slot]].references == 0
    ensures Nearly(Demoted(s, slot), {id, s.triedTable[slot]}, {id, s.triedTable[slot]}, {slot})
  {
    hide Hashing.Valid, CountsMatch, Named, Shuffled, CollisionsOk, Occurrences, TablesOk, InfoOk, Counted;
    TablesKnown(s, slot);
    var t, gone := Demoted(s, slot), s.triedTable[slot];
    TriedBare(s, gone, {id});
    IndexFrame(s, t);
    CollisionsFrame(s, t, {}, {slot});
    forall i | i in t.infos
      ensures InfoOk(t, i, t.infos[i], {id, gone})
    {
      DemotedInfo(s, slot, i, {id}, {id, gone});
    }
    DemotedTables(s, slot);
    DemotedCounts(s, slot, id);
  }

  /** Tried addresses have no entry in the new table. */
  lemma TriedBare(s: State, id: Id, bare: set<Id>)
    requires TablesOk(s) && id in s.infos && s.infos[id].inTried && InfoOk(s, id, s.infos[id], bare)
    ensures s.infos[id].references == 0 && Occurrences(s.newTable, id) == {}
  {
    forall slot | slot in s.newTable
      ensures s.newTable[slot] != id
    {
      assert NewEntryOk(s, slot, s.newTable[slot]);
    }
  }

  lemma DemotedInfo(s: State, slot: Slot, i: Id, bare: set<Id>, more: set<Id>)
    requires slot in s.triedTable && s.triedTable[slot] in s.infos && i in s.infos && InfoOk(s, i, s.infos[i], bare)
    requires TablesOk(s) && more == bare + {s.triedTable[slot]} && s.infos[s.triedTable[slot]].references == 0
    ensures var t := Demoted(s, slot); InfoOk(t, i, t.infos[i], more)
  {
    hide Hashing.Valid, Occurrences;
    assert TriedEntryOk(s, slot, s.triedTable[slot]);
  }

  lemma DemotedTables(s: State, slot: Slot)
    requires slot in s.triedTable && TablesOk(s) && s.triedTable[slot] in s.infos && Occurrences(s.newTable, s.triedTable[slot]) == {}
    ensures TablesOk(Demoted(s, slot))
  {
    var t, id := Demoted(s, slot), s.triedTable[slot];
    assert TriedEntryOk(s, slot, id);
    forall k | k in t.newTable
      ensures NewEntryOk(t, k, t.newTable[k])
    {
      assert NewEntryOk(s, k, s.newTable[k]);
    }
    forall k | k in t.triedTable
      ensures TriedEntryOk(t, k, t.triedTable[k])
    {
      assert TriedEntryOk(s, k, s.triedTable[k]);
    }
  }

  lemma DemotedCounts(s: State, slot: Slot, id: Id)
    requires slot in s.triedTable && s.triedTable[slot] in s.infos && s.infos[s.triedTable[slot]].inTried
    requires Counted(s, {id})
    ensures Counted(Demoted(s, slot), {id, s.triedTable[slot]})
  {
    hide Hashing.Valid, CountsMatch;
    var t, gone := Demoted(s, slot), s.triedTable[slot];
    var u, v := Untried(s) - {id}, Tried(s) - {gone};
    assert Tried(s) == v + {gone} && Tried(t) == v && Untried(t) - {id, gone} == u;
    CountsTriedMinus(s, t, gone, u, v);
  }

  lemma EnteredKeeps(s: State, slot: Slot, gone: Id, id: Id, hole: Slot)
    requires Nearly(s, {id, gone}, {id, gone}, {hole}) && id != gone && slot !in s.newTable && NewEntryOk(s, slot, gone)
    requires s.infos[gone].references == 0
    ensures Nearly(Entered(s, slot, gone), {id}, {id}, {hole})
  {
    hide Hashing.Valid, CountsMatch, Named, Shuffled, CollisionsOk, Occurrences, TablesOk, InfoOk, Counted;
    var t := Entered(s, slot, gone);
    IndexFrame(s, t);
    CollisionsFrame(s, t, {hole}, {hole});
    forall i | i in t.infos
      ensures InfoOk(t, i, t.infos[i], {id})
    {
      EnteredInfo(s, slot, gone, i, {id, gone}, {id});
    }
    EnteredTables(s, slot, gone);
    EnteredCounts(s, slot, gone, id);
  }

  lemma EnteredInfo(s: State, slot: Slot, gone: Id, i: Id, bare: set<Id>, less: set<Id>)
    requires slot !in s.newTable && gone in s.infos && s.infos[gone].references == 0
    requires i in s.infos && InfoOk(s, i, s.infos[i], bare) && bare == less + {gone}
    ensures var t := Entered(s, slot, gone); InfoOk(t, i, t.infos[i], less)
  {
    hide Hashing.Valid, Occurrences;
    OccurrencesPlus(s.newTable, slot, gone, i);
  }

  lemma EnteredTables(s: State, slot: Slot, id: Id)
    requires TablesOk(s) && NewEntryOk(s, slot, id)
    ensures TablesOk(Entered(s, slot, id))
  {
    var t := Entered(s, slot, id);
    forall k | k in t.newTable
      ensures NewEntryOk(t, k, t.newTable[k])
    {
      assert k != slot ==> NewEntryOk(s, k, s.newTable[k]);
    }
    forall k | k in t.triedTable
      ensures TriedEntryOk(t, k, t.triedTable[k])
    {
      assert TriedEntryOk(s, k, s.triedTable[k]);
    }
  }

  lemma EnteredCounts(s: State, slot: Slot, gone: Id, id: Id)
    requires gone in s.infos && !s.infos[gone].inTried && id != gone && Counted(s, {id, gone})
    ensures Counted(Entered(s, slot, gone), {id})
  {
    hide Hashing.Valid, CountsMatch;
    var t, u := Entered(s, slot, gone), Untried(s) - {id, gone};
    assert Untried(t) - {id} == u + {gone} && Tried(t) == Tried(s);
    CountsNewPlus(s, t, gone, u, Tried(s));
  }

  lemma PromotedKeeps(s: State, id: Id, holes: set<Slot>)
    requires Nearly(s, {id}, {id}, holes) && id in s.infos && !s.infos[id].inTried && s.infos[id].references == 0
    requires s.infos[id].lastSuccess > 0
    requires var slot := s.h.triedSlot(s.infos[id].addr); slot !in s.triedTable && holes <= {slot}
    ensures Consistent(Promoted(s, id))
  {
    hide Hashing.Valid, CountsMatch, Named, Shuffled, CollisionsOk, Occurrences, TablesOk, InfoOk, Counted;
    var t, slot := Promoted(s, id), s.h.triedSlot(s.infos[id].addr);
    IndexFrame(s, t);
    CollisionsFrame(s, t, holes, {});
    NoOccurrence(s, id, s.infos[id], {id});
    forall i | i in t.infos
      ensures InfoOk(t, i, t.infos[i], {})
    {
      PromotedInfo(s, id, i);
    }
    PromotedTables(s, id);
    PromotedCounts(s, id);
  }

  lemma PromotedInfo(s: State, id: Id, i: Id)
    requires id in s.infos && i in s.infos && InfoOk(s, i, s.infos[i], {id}) && s.infos[id].lastSuccess > 0
    requires s.h.triedSlot(s.infos[id].addr) !in s.triedTable
    ensures var t := Promoted(s, id); InfoOk(t, i, t.infos[i], {})
  {
    hide Hashing.Valid, Occurrences;
  }

  lemma PromotedTables(s: State, id: Id)
    requires id in s.infos && TablesOk(s) && forall slot | slot in s.newTable :: s.newTable[slot] != id
    ensures TablesOk(Promoted(s, id))
  {
    var t := Promoted(s, id);
    forall k | k in t.newTable
      ensures NewEntryOk(t, k, t.newTable[k])
    {
      assert NewEntryOk(s, k, s.newTable[k]);
    }
    forall k | k in t.triedTable
      ensures TriedEntryOk(t, k, t.triedTable[k])
    {
      assert k in s.triedTable ==> TriedEntryOk(s, k, s.triedTable[k]);
    }
  }

  lemma PromotedCounts(s: State, id: Id)
    requires id in s.infos && !s.infos[id].inTried && Counted(s, {id})
    ensures Counted(Promoted(s, id), {})
  {
    hide Hashing.Valid, CountsMatch;
    var t, u := Promoted(s, id), Untried(s) - {id};
    assert Untried(t) - {} == u && Tried(t) == Tried(s) + {id};
    CountsTriedPlus(s, t, id, u, Tried(s));
  }

  /** The slot in the new table to which an address goes back. */
  function BackSlot(s: State, id: Id): Slot
    requires id in s.infos
  {
    s.h.NewSlot(s.infos[id].addr, s.infos[id].source)
  }

  /** The tried address in a slot goes back to the new table, over whatever is in its way. */
  ghost function Evicted(s: State, slot: Slot, id: Id): State
    requires Nearly(s, {id}, {id}, {}) && slot in s.triedTable && id in s.infos && !s.infos[id].inTried && s.infos[id].references == 0
  {
    DemotedKeeps(s, slot, id);
    var gone := s.triedTable[slot];
    var t := Demoted(s, slot);
    var back := BackSlot(t, gone);
    EvictRoom(t, back, gone, id, slot);
    Entered(Cleared(t, back), back, gone)
  }

  lemma BackBound(s: State, id: Id, bare: set<Id>, uncounted: set<Id>, holes: set<Slot>)
    requires Nearly(s, bare, uncounted, holes) && id in s.infos
    ensures BackSlot(s, id).bucket < NEW_BUCKETS
  {
  }

  /** What is in the way is neither of the two addresses that change tables. */
  lemma EvictRoom(t: State, back: Slot, gone: Id, id: Id, slot: Slot)
    requires Nearly(t, {id, gone}, {id, gone}, {slot}) && gone in t.infos && id in t.infos && id != gone
    requires !t.infos[gone].inTried && t.infos[gone].references == 0 && t.infos[id].references == 0
    requires back == BackSlot(t, gone)
    ensures Shuffled(t) && (back in t.newTable ==> t.newTable[back] in t.infos && t.newTable[back] !in {id, gone})
    ensures var u := Cleared(t, back);
            && Nearly(u, {id, gone}, {id, gone}, {slot}) && AtMostForgets(t, u, back)
            && gone in u.infos && id in u.infos && Alike(t.infos[gone], u.infos[gone]) && Alike(t.infos[id], u.infos[id])
            && NewEntryOk(u, back, gone) && Nearly(Entered(u, back, gone), {id}, {id}, {slot})
  {
    hide Hashing.Valid, Shuffled, TablesOk, InfoOk, Counted, CountsMatch, CollisionsOk, Named, Cleared;
    NoOccurrence(t, gone, t.infos[gone], {id, gone});
    NoOccurrence(t, id, t.infos[id], {id, gone});
    TablesKnown(t, back);
    BackBound(t, gone, {id, gone}, {id, gone}, {slot});
    ClearedKeeps(t, back, {id, gone}, {id, gone}, {slot});
    var u := Cleared(t, back);
    EnteredKeeps(u, back, gone, id, slot);
  }

  /** Move an address to the tried table, evicting the one in its slot. */
  ghost function MadeTried(s: State, id: Id): State
    requires Consistent(s) && id in s.infos && !s.infos[id].inTried && s.infos[id].lastSuccess > 0
  {
    RemovedKeeps(s, id);
    var t, slot := Removed(s, id), s.h.triedSlot(s.infos[id].addr);
    if slot in t.triedTable then
      EvictedFacts(t, slot, id);
      Promoted(Evicted(t, slot, id), id)
    else Promoted(t, id)
  }

  lemma EvictedFacts(s: State, slot: Slot, id: Id)
    requires Nearly(s, {id}, {id}, {}) && slot in s.triedTable && id in s.infos && !s.infos[id].inTried && s.infos[id].references == 0
    ensures var t := Evicted(s, slot, id);
            && Nearly(t, {id}, {id}, {slot}) && t.triedTable == s.triedTable - {slot}
            && id in t.infos && Alike(s.infos[id], t.infos[id])
            && t.h == s.h && t.idCount == s.idCount && t.collisions == s.collisions && t.lastGood == s.lastGood
            && (forall i | i in t.infos :: i in s.infos && t.infos[i].addr == s.infos[i].addr)
  {
    hide Hashing.Valid, Nearly, Cleared, Named, Shuffled, TablesOk, Counted, CollisionsOk;
    DemotedKeeps(s, slot, id);
    var gone, t := s.triedTable[slot], Demoted(s, slot);
    var back := BackSlot(t, gone);
    EvictRoom(t, back, gone, id, slot);
  }

  /** Consistency is kept, the address is in its slot, no slot of the tried table becomes empty and no id
      comes back. */
  ghost predicate Grown(s: State, t: State) {
    && t.h == s.h && t.idCount >= s.idCount
    && (forall slot | slot in s.triedTable :: slot in t.triedTable)
    && (forall i | i in t.infos && i < s.idCount :: i in s.infos && t.infos[i].addr == s.infos[i].addr)
  }

  lemma MadeTriedKeeps(s: State, id: Id)
    requires Consistent(s) && id in s.infos && !s.infos[id].inTried && s.infos[id].lastSuccess > 0
    ensures var t := MadeTried(s, id);
            && Consistent(t) && Grown(s, t) && t.idCount == s.idCount && t.collisions == s.collisions && t.lastGood == s.lastGood
            && id in t.infos && t.infos[id].inTried
  {
    hide Hashing.Valid, Nearly, Evicted, Named, Shuffled, TablesOk, Counted, CollisionsOk;
    RemovedKeeps(s, id);
    var t, slot := Removed(s, id), s.h.triedSlot(s.infos[id].addr);
    if slot in t.triedTable {
      EvictedFacts(t, slot, id);
      PromotedKeeps(Evicted(t, slot, id), id, {slot});
    } else {
      PromotedKeeps(t, id, {});
    }
  }

  /** The id that stands in a slot of the new table. */
  predicate Holds(table: Table, slot: Slot, id: Id) {
    slot in table && table[slot] == id
  }

  /** The evicted address stays known and stands in the new table; at most the one in its way is forgotten. */
  lemma EvictedMoves(s: State, slot: Slot, id: Id)
    requires Nearly(s, {id}, {id}, {}) && slot in s.triedTable && id in s.infos && !s.infos[id].inTried && s.infos[id].references == 0
    ensures s.triedTable[slot] in s.infos
    ensures var t, gone := Evicted(s, slot, id), s.triedTable[slot];
            var back := BackSlot(s, gone);
            && gone in t.infos && !t.infos[gone].inTried && Holds(t.newTable, back, gone)
            && (forall i | i in s.infos :: i in t.infos || Holds(s.newTable, back, i))
  {
    hide Hashing.Valid, Nearly, Cleared, Named, Shuffled, TablesOk, Counted, CollisionsOk;
    DemotedKeeps(s, slot, id);
    var gone, t := s.triedTable[slot], Demoted(s, slot);
    var back := BackSlot(t, gone);
    EvictRoom(t, back, gone, id, slot);
    assert t.infos.Keys == s.infos.Keys;
  }

  /** The address takes its slot in the tried table, the one that was there goes back to the new table, and
      at most the one in its way there is forgotten. */
  lemma MadeTriedMoves(s: State, id: Id)
    requires Consistent(s) && id in s.infos && !s.infos[id].inTried && s.infos[id].lastSuccess > 0
    ensures var t, slot := MadeTried(s, id), s.h.triedSlot(s.infos[id].addr);
            && t.triedTable == s.triedTable[slot := id] && id in t.infos && t.infos[id].lastSuccess == s.infos[id].lastSuccess
            && (slot !in s.triedTable ==> t.infos.Keys == s.infos.Keys)
            && (slot in s.triedTable ==>
                  var gone := s.triedTable[slot];
                  && gone in s.infos && gone in t.infos && !t.infos[gone].inTried
                  && Holds(t.newTable, BackSlot(s, gone), gone)
                  && forall i | i in s.infos :: i in t.infos || Holds(s.newTable, BackSlot(s, gone), i))
  {
    hide Hashing.Valid, Nearly, Evicted, Named, Shuffled, TablesOk, Counted, CollisionsOk;
    RemovedKeeps(s, id);
    var t, slot := Removed(s, id), s.h.triedSlot(s.infos[id].addr);
    NearlyFacts(s, {}, {}, {});
    if slot in t.triedTable {
      TriedKnown(s, slot);
      EvictedFacts(t, slot, id);
      EvictedMoves(t, slot, id);
    }
  }

  lemma TriedKnown(s: State, slot: Slot)
    requires TablesOk(s) && slot in s.triedTable
    ensures TriedEntryOk(s, slot, s.triedTable[slot])
  {
  }

  // ---------------------------------------------------------------------------------------------
  // The operations

  /** New knowledge about an address that touches neither tables nor indexes. */
  predicate Touched(i: Info, j: Info) {
    && i.addr == j.addr && i.source == j.source && i.inTried == j.inTried && i.references == j.references && i.randomPos == j.randomPos
    && j.lastTry >= 0 && j.lastSuccess >= 0 && (i.lastSuccess > 0 ==> j.lastSuccess > 0)
  }

  lemma TouchedKeeps(s: State, id: Id, info: Info)
    requires Consistent(s) && id in s.infos && Touched(s.infos[id], info)
    ensures Consistent(WithInfo(s, id, info)) && Grown(s, WithInfo(s, id, info))
  {
    hide Hashing.Valid, CountsMatch, Named, Shuffled, CollisionsOk, Occurrences, TablesOk, InfoOk, Counted;
    var t := WithInfo(s, id, info);
    IndexFrame(s, t);
    CollisionsFrame(s, t, {}, {});
    forall i | i in t.infos
      ensures InfoOk(t, i, t.infos[i], {})
    {
      TouchedInfo(s, t, i, s.infos[i], t.infos[i]);
    }
    TouchedTables(s, id, info);
    TouchedCounts(s, id, info);
  }

  lemma TouchedInfo(s: State, t: State, id: Id, i: Info, j: Info)
    requires s.h == t.h && s.newTable == t.newTable && s.triedTable == t.triedTable && InfoOk(s, id, i, {})
    requires i == j || Touched(i, j)
    ensures InfoOk(t, id, j, {})
  {
  }

  lemma TouchedTables(s: State, id: Id, info: Info)
    requires TablesOk(s) && id in s.infos && Touched(s.infos[id], info)
    ensures TablesOk(WithInfo(s, id, info))
  {
    var t := WithInfo(s, id, info);
    forall k | k in t.newTable
      ensures NewEntryOk(t, k, t.newTable[k])
    {
      assert NewEntryOk(s, k, s.newTable[k]);
    }
    forall k | k in t.triedTable
      ensures TriedEntryOk(t, k, t.triedTable[k])
    {
      assert TriedEntryOk(s, k, s.triedTable[k]);
    }
  }

  lemma TouchedCounts(s: State, id: Id, info: Info)
    requires id in s.infos && Touched(s.infos[id], info) && Counted(s, {})
    ensures Counted(WithInfo(s, id, info), {})
  {
    hide Hashing.Valid, CountsMatch;
    var t := WithInfo(s, id, info);
    assert Untried(t) == Untried(s) && Tried(t) == Tried(s);
    CountsSame(s, t, Untried(s) - {}, Tried(s));
  }

  const MINUTE: int := 60
  const HOUR: int := 3600
  const DAY: int := 86400

  /** Statistics bad enough for an entry to be overwritten. */
  predicate IsTerrible(info: Info, now: int) {
    if now - info.lastTry <= MINUTE then false
    else
      || info.time > now + 10 * MINUTE
      || now - info.time > 30 * DAY
      || (info.lastSuccess == 0 && info.attempts >= 3)
      || (now - info.lastSuccess > 7 * DAY && info.attempts >= 10)
  }

  /** An address as a peer announces it. */
  datatype Announcement = Announcement(addr: Addr, services: set<nat>, time: int)

  /** What a repeated announcement adds to what is known. */
  function Renewed(info: Info, a: Announcement, penalty: int, now: int): Info {
    var interval := if now - a.time < DAY then HOUR else DAY;
    var time := if info.time < a.time - interval - penalty then Max(0, a.time - penalty) else info.time;
    info.(time := time, services := info.services + a.services)
  }

  /** Put an address that is not tried into its slot of the new table for this source, if the slot is
      empty or its entry is worth less; an address that got no entry at all is forgotten. */
  ghost function Placed(s: State, id: Id, source: nat, now: int, bare: set<Id>): (State, bool)
    requires Nearly(s, bare, {}, {}) && id in s.infos && !s.infos[id].inTried && bare <= {id}
    requires s.infos[id].references < MAX_REFERENCES
  {
    var slot := s.h.NewSlot(s.infos[id].addr, source);
    NearlyFacts(s, bare, {}, {});
    TablesKnown(s, slot);
    if slot in s.newTable && s.newTable[slot] == id then (s, false)
    else
      var insert := slot !in s.newTable ||
                    (var there := s.infos[s.newTable[slot]];
                     IsTerrible(there, now) || (there.references > 1 && s.infos[id].references == 0));
      if insert then
        ClearedForgets(s, slot);
        (Filled(Cleared(s, slot), slot, id), true)
      else if s.infos[id].references == 0 then (Deleted(s, id), false)
      else (s, false)
  }

  lemma PlacedKeeps(s: State, id: Id, source: nat, now: int, bare: set<Id>)
    requires Nearly(s, bare, {}, {}) && id in s.infos && !s.infos[id].inTried && bare <= {id}
    requires s.infos[id].references < MAX_REFERENCES && (bare == {} || s.infos[id].references == 0)
    ensures var (t, inserted) := Placed(s, id, source, now, bare);
            Consistent(t) && Grown(s, t) && t.collisions == s.collisions && t.idCount == s.idCount
  {
    hide Hashing.Valid, Nearly, Shuffled, TablesOk, Cleared, Deleted, IsTerrible, Grown, Named, Counted, CollisionsOk;
    var slot := s.h.NewSlot(s.infos[id].addr, source);
    NearlyFacts(s, bare, {}, {});
    TablesKnown(s, slot);
    NoneBare(s, id, bare, slot);
    GrownSelf(s);
    if !(slot in s.newTable && s.newTable[slot] == id) {
      PlacedInserted(s, id, slot, bare);
      if s.infos[id].references == 0 {
        PlacedDeleted(s, id, bare);
      }
    }
  }

  lemma GrownSelf(s: State)
    ensures Grown(s, s)
  {
  }

  lemma PlacedInserted(s: State, id: Id, slot: Slot, bare: set<Id>)
    requires Nearly(s, bare, {}, {}) && id in s.infos && !s.infos[id].inTried && bare <= {id}
    requires s.infos[id].references < MAX_REFERENCES && !(slot in s.newTable && s.newTable[slot] == id)
    requires slot.bucket < NEW_BUCKETS && slot.position == s.h.newPosition(s.infos[id].addr, slot.bucket)
    ensures Shuffled(s) && (slot in s.newTable ==> s.newTable[slot] in s.infos) && id in Cleared(s, slot).infos
    ensures var t := Filled(Cleared(s, slot), slot, id);
            Consistent(t) && Grown(s, t) && t.collisions == s.collisions && t.idCount == s.idCount
  {
    hide Hashing.Valid, Nearly, Shuffled, TablesOk, Cleared, Grown, Named, Counted, CollisionsOk;
    NearlyFacts(s, bare, {}, {});
    ClearedKeeps(s, slot, bare, {}, {});
    var u := Cleared(s, slot);
    FilledKeeps(u, slot, id, bare, {}, {});
    assert bare - {id} == {};
    ForgetsGrown(s, u, slot);
    FilledGrown(s, u, slot, id);
  }

  lemma ForgetsGrown(s: State, t: State, slot: Slot)
    requires AtMostForgets(s, t, slot)
    ensures Grown(s, t)
  {
  }

  lemma FilledGrown(s: State, u: State, slot: Slot, id: Id)
    requires Grown(s, u) && id in u.infos
    ensures Grown(s, Filled(u, slot, id))
  {
  }

  lemma PlacedDeleted(s: State, id: Id, bare: set<Id>)
    requires Nearly(s, bare, {}, {}) && id in s.infos && !s.infos[id].inTried && bare <= {id} && s.infos[id].references == 0
    ensures Shuffled(s)
    ensures var t := Deleted(s, id);
            Consistent(t) && Grown(s, t) && t.collisions == s.collisions && t.idCount == s.idCount
  {
    hide Hashing.Valid, Nearly, Shuffled, Deleted, Grown, Named, TablesOk, Counted, CollisionsOk;
    NearlyFacts(s, bare, {}, {});
    DeletedKeeps(s, id, bare, {}, {});
    DeletedFrame(s, id);
    assert bare - {id} == {};
    DeletedGrown(s, id);
  }

  lemma DeletedGrown(s: State, id: Id)
    requires Shuffled(s) && id in s.infos
    ensures Grown(s, Deleted(s, id))
  {
    hide Shuffled, Deleted;
    DeletedFrame(s, id);
    var t := Deleted(s, id);
    forall i | i in t.infos
      ensures i in s.infos && t.infos[i].addr == s.infos[i].addr
    {
      assert i != id && Alike(s.infos[i], t.infos[i]);
    }
  }

  /** An excepted address has no entry, so its exception ends with its first one. */
  lemma NoneBare(s: State, id: Id, bare: set<Id>, slot: Slot)
    requires Nearly(s, bare, {}, {}) && id in s.infos && bare <= {id} && (bare == {} || s.infos[id].references == 0)
    ensures slot in s.newTable && s.newTable[slot] == id ==> bare == {}
    ensures s.infos[id].references > 0 ==> bare == {}
    ensures forall source: nat :: s.h.newBucket(s.infos[id].addr, source) < NEW_BUCKETS
  {
    if bare != {} {
      NoOccurrence(s, id, s.infos[id], bare);
    }
  }

  lemma PlacedMeaning(s: State, id: Id, source: nat, now: int, bare: set<Id>)
    requires Nearly(s, bare, {}, {}) && id in s.infos && !s.infos[id].inTried && bare <= {id}
    requires s.infos[id].references < MAX_REFERENCES
    ensures var (t, inserted) := Placed(s, id, source, now, bare);
            var slot := s.h.NewSlot(s.infos[id].addr, source);
            && (inserted ==> id in t.infos && Holds(t.newTable, slot, id))
            && (!inserted ==> t.newTable == s.newTable && (id in t.infos <==> s.infos[id].references > 0))
            && (forall i | i in s.infos && i != id :: i in t.infos || (inserted && Holds(s.newTable, slot, i)))
  {
    hide Hashing.Valid, Hashing.NewSlot, Nearly, Shuffled, TablesOk, Cleared, Deleted, Filled, IsTerrible, Named, Counted, CollisionsOk, AtMostForgets;
    var slot := s.h.NewSlot(s.infos[id].addr, source);
    NearlyFacts(s, bare, {}, {});
    TablesKnown(s, slot);
    HeldIsReferenced(s, slot, id, bare);
    if !Holds(s.newTable, slot, id) {
      InsertedWhere(s, id, slot);
      DeletedWhere(s, id);
    }
  }

  lemma InsertedWhere(s: State, id: Id, slot: Slot)
    requires Shuffled(s) && id in s.infos && (slot in s.newTable ==> s.newTable[slot] in s.infos) && !Holds(s.newTable, slot, id)
    ensures id in Cleared(s, slot).infos
    ensures var t := Filled(Cleared(s, slot), slot, id);
            id in t.infos && Holds(t.newTable, slot, id) && forall i | i in s.infos :: i in t.infos || Holds(s.newTable, slot, i)
  {
    hide Shuffled, Cleared;
    ClearedForgets(s, slot);
  }

  lemma DeletedWhere(s: State, id: Id)
    requires Shuffled(s) && id in s.infos
    ensures Deleted(s, id).newTable == s.newTable && Deleted(s, id).infos.Keys == s.infos.Keys - {id}
  {
    hide Shuffled, Deleted;
    DeletedFrame(s, id);
  }

  lemma HeldIsReferenced(s: State, slot: Slot, id: Id, bare: set<Id>)
    requires Nearly(s, bare, {}, {}) && id in s.infos
    ensures s.infos[id].references >= if Holds(s.newTable, slot, id) then 1 else 0
  {
    hide Hashing.Valid, Shuffled, TablesOk, Named, Counted, CollisionsOk;
    assert InfoOk(s, id, s.infos[id], bare) && (Holds(s.newTable, slot, id) ==> slot in Occurrences(s.newTable, id));
  }

  /** Handle one announced address; `later` is the time at which an entry in the way is judged. */
  ghost function AddedSingle(s: State, a: Announcement, routable: bool, source: nat, given: int, now: int, later: int, lucky: bool): (State, bool)
    requires Consistent(s)
  {
    hide Nearly;
    if !routable then (s, false)
    else
      var penalty := if s.h.host(a.addr) == source then 0 else given;
      if a.addr in s.byAddr then
        KnownAddr(s, a.addr);
        var id := s.byAddr[a.addr];
        var info := Renewed(s.infos[id], a, penalty, now);
        InfoTimes(s, id);
        TouchedKeeps(s, id, info);
        var t := WithInfo(s, id, info);
        if a.time <= info.time || info.inTried || info.references == MAX_REFERENCES || (info.references > 0 && !lucky) then (t, false)
        else
          FewReferences(t, id);
          Placed(t, id, source, later, {})
      else
        CreatedKeeps(s, a.addr, source, a.services, Max(0, a.time - penalty));
        Placed(Created(s, a.addr, source, a.services, Max(0, a.time - penalty)), s.idCount, source, later, {s.idCount})
  }

  lemma KnownAddr(s: State, a: Addr)
    requires Consistent(s) && a in s.byAddr
    ensures s.byAddr[a] in s.infos && s.infos[s.byAddr[a]].addr == a
  {
  }

  lemma InfoTimes(s: State, id: Id)
    requires Consistent(s) && id in s.infos
    ensures s.infos[id].lastTry >= 0 && s.infos[id].lastSuccess >= 0 && (s.infos[id].inTried ==> s.infos[id].lastSuccess > 0)
    ensures !s.infos[id].inTried ==> 0 < s.infos[id].references <= MAX_REFERENCES
  {
    assert InfoOk(s, id, s.infos[id], {});
  }

  lemma FewReferences(s: State, id: Id)
    requires Consistent(s) && id in s.infos && !s.infos[id].inTried && s.infos[id].references != MAX_REFERENCES
    ensures s.infos[id].references < MAX_REFERENCES
  {
    InfoTimes(s, id);
  }

  lemma AddedSingleKeeps(s: State, a: Announcement, routable: bool, source: nat, given: int, now: int, later: int, lucky: bool)
    requires Consistent(s)
    ensures var (t, added) := AddedSingle(s, a, routable, source, given, now, later, lucky); Consistent(t) && Grown(s, t)
  {
    hide Hashing.Valid, Nearly, Placed, Named, Shuffled, TablesOk, Counted, CollisionsOk;
    if routable {
      var penalty := if s.h.host(a.addr) == source then 0 else given;
      if a.addr in s.byAddr {
        KnownAddr(s, a.addr);
        var id := s.byAddr[a.addr];
        var info := Renewed(s.infos[id], a, penalty, now);
        InfoTimes(s, id);
        TouchedKeeps(s, id, info);
        var t := WithInfo(s, id, info);
        if !(a.time <= info.time || info.inTried || info.references == MAX_REFERENCES || (info.references > 0 && !lucky)) {
          FewReferences(t, id);
          PlacedKeeps(t, id, source, later, {});
        }
      } else {
        var t := Created(s, a.addr, source, a.services, Max(0, a.time - penalty));
        CreatedKeeps(s, a.addr, source, a.services, Max(0, a.time - penalty));
        PlacedKeeps(t, s.idCount, source, later, {s.idCount});
      }
    }
  }

  /** An added address is known and stands in its slot for this source; a new one that is not added is not
      known.  Of the others at most the one that stood in that slot is forgotten. */
  lemma AddedSingleMeaning(s: State, a: Announcement, routable: bool, source: nat, given: int, now: int, later: int, lucky: bool)
    requires Consistent(s)
    ensures var (t, added) := AddedSingle(s, a, routable, source, given, now, later, lucky);
            var slot := s.h.NewSlot(a.addr, source);
            && (!routable ==> t == s && !added)
            && (added ==> a.addr in t.byAddr && Holds(t.newTable, slot, t.byAddr[a.addr]))
            && (routable && a.addr !in s.byAddr ==> (a.addr in t.byAddr <==> added))
            && (forall b | b in s.byAddr :: b in t.byAddr || (added && Holds(s.newTable, slot, s.byAddr[b])))
  {
    hide Hashing.Valid, Nearly, Placed, Named, Shuffled, TablesOk, Counted, CollisionsOk, Grown, Hashing.NewSlot;
    AddedSingleKeeps(s, a, routable, source, given, now, later, lucky);
    if routable {
      var penalty := if s.h.host(a.addr) == source then 0 else given;
      if a.addr in s.byAddr {
        KnownAddr(s, a.addr);
        var id := s.byAddr[a.addr];
        var info := Renewed(s.infos[id], a, penalty, now);
        InfoTimes(s, id);
        if !(a.time <= info.time || info.inTried || info.references == MAX_REFERENCES || (info.references > 0 && !lucky)) {
          AddedKnown(s, a.addr, info, source, later);
        }
      } else {
        AddedUnknown(s, a.addr, source, a.services, Max(0, a.time - penalty), later);
      }
    }
  }

  lemma AddedKnown(s: State, addr: Addr, info: Info, source: nat, now: int)
    requires Consistent(s) && addr in s.byAddr && s.byAddr[addr] in s.infos && Touched(s.infos[s.byAddr[addr]], info)
    requires !info.inTried && info.references != MAX_REFERENCES
    ensures var id := s.byAddr[addr];
            var t, slot := WithInfo(s, id, info), s.h.NewSlot(addr, source);
            && Consistent(t) && info.references < MAX_REFERENCES
            && var (r, added) := Placed(t, id, source, now, {});
               && addr in r.byAddr && (added ==> Holds(r.newTable, slot, r.byAddr[addr]))
               && (forall b | b in s.byAddr :: b in r.byAddr || (added && Holds(s.newTable, slot, s.byAddr[b])))
  {
    hide Hashing.Valid, Nearly, Placed, Named, Shuffled, TablesOk, Counted, CollisionsOk, Grown, Hashing.NewSlot;
    var id := s.byAddr[addr];
    KnownAddr(s, addr);
    InfoTimes(s, id);
    TouchedKeeps(s, id, info);
    var t := WithInfo(s, id, info);
    FewReferences(t, id);
    PlacedMeaning(t, id, source, now, {});
    PlacedKeeps(t, id, source, now, {});
    var (r, added) := Placed(t, id, source, now, {});
    NearlyFacts(t, {}, {}, {});
    NamesFollow(t, r, id);
    GrownTransitive(s, t, r);
    StillNamed(s, r, s.h.NewSlot(addr, source), added);
  }

  lemma AddedUnknown(s: State, addr: Addr, source: nat, services: set<nat>, time: int, now: int)
    requires Consistent(s) && addr !in s.byAddr
    ensures var t, slot := Created(s, addr, source, services, time), s.h.NewSlot(addr, source);
            && Nearly(t, {s.idCount}, {}, {})
            && var (r, added) := Placed(t, s.idCount, source, now, {s.idCount});
               && (added <==> addr in r.byAddr) && (added ==> Holds(r.newTable, slot, r.byAddr[addr]))
               && (forall b | b in s.byAddr :: b in r.byAddr || (added && Holds(s.newTable, slot, s.byAddr[b])))
  {
    hide Hashing.Valid, Nearly, Placed, Named, Shuffled, TablesOk, Counted, CollisionsOk, Grown, Hashing.NewSlot;
    var id := s.idCount;
    CreatedKeeps(s, addr, source, services, time);
    var t := Created(s, addr, source, services, time);
    PlacedMeaning(t, id, source, now, {id});
    PlacedKeeps(t, id, source, now, {id});
    var (r, added) := Placed(t, id, source, now, {id});
    NearlyFacts(t, {id}, {}, {});
    NextIdFree(s);
    NamesFollow(t, r, id);
    CreatedGrown(s, addr, source, services, time);
    GrownTransitive(s, t, r);
    StillNamed(s, r, s.h.NewSlot(addr, source), added);
  }

  lemma CreatedGrown(s: State, addr: Addr, source: nat, services: set<nat>, time: int)
    ensures Grown(s, Created(s, addr, source, services, time))
  {
  }

  lemma NextIdFree(s: State)
    requires Consistent(s)
    ensures s.idCount !in s.infos
  {
    hide Hashing.Valid, Shuffled, TablesOk, Counted, CollisionsOk;
  }

  /** Whether an id is known decides whether its address is. */
  lemma NamesFollow(s: State, t: State, id: Id)
    requires Named(s) && Consistent(t) && Grown(s, t) && t.idCount == s.idCount && id in s.infos
    ensures id in t.infos <==> s.infos[id].addr in t.byAddr
    ensures id in t.infos ==> t.byAddr[s.infos[id].addr] == id
  {
    hide Hashing.Valid, Nearly, Shuffled, TablesOk, Counted, CollisionsOk;
    NearlyFacts(t, {}, {}, {});
  }

  lemma StillNamed(s: State, t: State, slot: Slot, added: bool)
    requires Consistent(s) && Consistent(t) && Grown(s, t)
    requires forall i | i in s.infos :: i in t.infos || (added && Holds(s.newTable, slot, i))
    ensures forall b | b in s.byAddr :: b in t.byAddr || (added && Holds(s.newTable, slot, s.byAddr[b]))
  {
    hide Hashing.Valid, Nearly, Shuffled, TablesOk, Counted, CollisionsOk;
    NearlyFacts(s, {}, {}, {});
    NearlyFacts(t, {}, {}, {});
  }

  lemma GrownTransitive(s: State, t: State, u: State)
    requires Grown(s, t) && Grown(t, u)
    ensures Grown(s, u)
  {
  }

  /** Fields that consistency does not mention. */
  lemma OtherFields(s: State, t: State)
    requires Consistent(s) && t == s.(lastGood := t.lastGood, collisions := t.collisions) && CollisionsOk(t, {})
    ensures Consistent(t) && Grown(s, t)
  {
    hide Hashing.Valid, Named, Shuffled, InfoOk, OfNetwork, TablesOk, CountsMatch, Untried, Tried;
    SameIndexes(s, t);
    SameCounts(s, t);
    forall i | i in t.infos
      ensures InfoOk(t, i, t.infos[i], {})
    {
      TouchedInfo(s, t, i, s.infos[i], t.infos[i]);
    }
  }

  lemma SameIndexes(s: State, t: State)
    requires Named(s) && Shuffled(s) && TablesOk(s) && t == s.(lastGood := t.lastGood, collisions := t.collisions)
    ensures Named(t) && Shuffled(t) && TablesOk(t)
  {
    IndexFrame(s, t);
    hide Named, Shuffled;
    forall k: Slot
      ensures k in s.newTable ==> s.newTable[k] in s.infos
      ensures k in s.triedTable ==> s.triedTable[k] in s.infos
    {
      TablesKnown(s, k);
    }
    TablesFrame(s, t);
  }

  lemma SameCounts(s: State, t: State)
    requires Counted(s, {}) && t == s.(lastGood := t.lastGood, collisions := t.collisions)
    ensures Counted(t, {})
  {
    hide CountsMatch;
    assert Untried(t) == Untried(s) && Tried(t) == Tried(s);
    CountsSame(s, t, Untried(s) - {}, Tried(s));
  }

  /** Note that a connection succeeded. */
  function Noted(s: State, id: Id, time: int): State
    requires id in s.infos
  {
    WithInfo(s.(lastGood := time), id, s.infos[id].(lastSuccess := time, lastTry := time, attempts := 0))
  }

  lemma NotedKeeps(s: State, id: Id, time: int)
    requires Consistent(s) && id in s.infos && time > 0
    ensures var t := Noted(s, id, time);
            && Consistent(t) && Grown(s, t) && t.collisions == s.collisions && t.triedTable == s.triedTable && t.h == s.h
            && t.infos.Keys == s.infos.Keys && t.infos[id].lastSuccess == time
            && t.infos[id].addr == s.infos[id].addr && t.infos[id].inTried == s.infos[id].inTried
  {
    hide Hashing.Valid, Nearly, Grown, Named, Shuffled, TablesOk, Counted, CollisionsOk;
    var s1 := s.(lastGood := time);
    NearlyFacts(s, {}, {}, {});
    SameCollisions(s, s1);
    OtherFields(s, s1);
    TouchedKeeps(s1, id, s.infos[id].(lastSuccess := time, lastTry := time, attempts := 0));
    GrownTransitive(s, s1, Noted(s, id, time));
  }

  lemma SameCollisions(s: State, t: State)
    requires CollisionsOk(s, {}) && t == s.(lastGood := t.lastGood)
    ensures CollisionsOk(t, {})
  {
    CollisionsFrame(s, t, {}, {});
  }

  /** Move an address with a success to the tried table, unless its slot there is taken and the one in it
      is to be tested first; then remember the collision, if there is room. */
  ghost function Settled(s: State, id: Id, test: bool): (State, bool)
    requires Consistent(s) && id in s.infos && s.infos[id].lastSuccess > 0
  {
    if s.infos[id].inTried then (s, false)
    else if test && s.h.triedSlot(s.infos[id].addr) in s.triedTable then
      (if |s.collisions| < MAX_COLLISIONS then s.(collisions := s.collisions + {id}) else s, false)
    else (MadeTried(s, id), true)
  }

  lemma SettledKeeps(s: State, id: Id, test: bool)
    requires Consistent(s) && id in s.infos && s.infos[id].lastSuccess > 0
    ensures var (t, moved) := Settled(s, id, test);
            Consistent(t) && Grown(s, t) && (!test ==> t.collisions == s.collisions)
  {
    hide Hashing.Valid, Nearly, MadeTried, Grown, Named, Shuffled, TablesOk, Counted, CollisionsOk;
    GrownSelf(s);
    if !s.infos[id].inTried {
      if test && s.h.triedSlot(s.infos[id].addr) in s.triedTable {
        if |s.collisions| < MAX_COLLISIONS {
          CollisionAdded(s, id);
        }
      } else {
        MadeTriedKeeps(s, id);
      }
    }
  }

  ghost function MadeGood(s: State, addr: Addr, test: bool, time: int): (State, bool)
    requires Consistent(s) && time > 0
  {
    if addr !in s.byAddr then (s.(lastGood := time), false)
    else
      KnownAddr(s, addr);
      NotedKeeps(s, s.byAddr[addr], time);
      Settled(Noted(s, s.byAddr[addr], time), s.byAddr[addr], test)
  }

  lemma MadeGoodKeeps(s: State, addr: Addr, test: bool, time: int)
    requires Consistent(s) && time > 0
    ensures var (t, moved) := MadeGood(s, addr, test, time);
            Consistent(t) && Grown(s, t) && (!test ==> t.collisions == s.collisions)
  {
    hide Hashing.Valid, Nearly, Settled, Grown, Noted, Named, Shuffled, TablesOk, Counted, CollisionsOk;
    if addr in s.byAddr {
      var id := s.byAddr[addr];
      KnownAddr(s, addr);
      NotedKeeps(s, id, time);
      SettledKeeps(Noted(s, id, time), id, test);
      GrownTransitive(s, Noted(s, id, time), Settled(Noted(s, id, time), id, test).0);
    } else {
      var s1 := s.(lastGood := time);
      NearlyFacts(s, {}, {}, {});
      SameCollisions(s, s1);
      OtherFields(s, s1);
    }
  }

  /** Known, but not in the tried table. */
  predicate NotTried(s: State, addr: Addr) {
    addr in s.byAddr && s.byAddr[addr] in s.infos && !s.infos[s.byAddr[addr]].inTried
  }

  /** A success moves an address that is not tried into its tried slot, unless the one there is to be
      tested first; then the collision is remembered, if there is room.  The one that was there stays
      known, and at most one other address is forgotten: the one in whose place it goes. */
  lemma MadeGoodMeaning(s: State, addr: Addr, test: bool, time: int)
    requires Consistent(s) && time > 0
    ensures var (t, moved) := MadeGood(s, addr, test, time);
            var slot := s.h.triedSlot(addr);
            && t.lastGood == time
            && (moved <==> NotTried(s, addr) && !(test && slot in s.triedTable))
            && (!moved ==> t.triedTable == s.triedTable && t.infos.Keys == s.infos.Keys)
            && (NotTried(s, addr) && !moved && |s.collisions| < MAX_COLLISIONS ==> s.byAddr[addr] in t.collisions)
            && (moved ==> t.triedTable == s.triedTable[slot := s.byAddr[addr]] && s.byAddr[addr] in t.infos
                          && t.infos[s.byAddr[addr]].lastSuccess == time)
            && (moved && slot !in s.triedTable ==> t.infos.Keys == s.infos.Keys)
            && (moved && slot in s.triedTable ==>
                  var gone := s.triedTable[slot];
                  && gone in s.infos && gone in t.infos && !t.infos[gone].inTried
                  && Holds(t.newTable, BackSlot(s, gone), gone)
                  && forall i | i in s.infos :: i in t.infos || Holds(s.newTable, BackSlot(s, gone), i))
  {
    hide Hashing.Valid, Nearly, MadeTried, Named, Shuffled, TablesOk, Counted, CollisionsOk, Grown;
    if addr in s.byAddr {
      var id := s.byAddr[addr];
      KnownAddr(s, addr);
      NotedKeeps(s, id, time);
      var t := Noted(s, id, time);
      if !t.infos[id].inTried {
        MadeTriedKeeps(t, id);
        MadeTriedMoves(t, id);
      }
    }
  }

  lemma CollisionAdded(s: State, id: Id)
    requires Consistent(s) && id in s.infos && s.h.triedSlot(s.infos[id].addr) in s.triedTable && |s.collisions| < MAX_COLLISIONS
    ensures var t := s.(collisions := s.collisions + {id}); Consistent(t) && Grown(s, t)
  {
    hide Hashing.Valid, Shuffled, InfoOk, TablesOk, CountsMatch, Untried, Tried;
    var t := s.(collisions := s.collisions + {id});
    assert CollisionsOk(t, {});
    hide Nearly, Named, Shuffled, TablesOk, Counted, CollisionsOk;
    OtherFields(s, t);
  }

  function Attempted(s: State, addr: Addr, countFailure: bool, time: int): State
    requires addr in s.byAddr ==> s.byAddr[addr] in s.infos
  {
    if addr !in s.byAddr then s
    else
      var id := s.byAddr[addr];
      var info := s.infos[id].(lastTry := time);
      WithInfo(s, id, if countFailure && info.lastCount < s.lastGood then info.(lastCount := time, attempts := info.attempts + 1) else info)
  }

  function ConnectedAt(s: State, addr: Addr, time: int): State
    requires addr in s.byAddr ==> s.byAddr[addr] in s.infos
  {
    if addr !in s.byAddr then s
    else
      var id := s.byAddr[addr];
      if time - s.infos[id].time > 20 * MINUTE then WithInfo(s, id, s.infos[id].(time := time)) else s
  }

  function ServicesSet(s: State, addr: Addr, services: set<nat>): State
    requires addr in s.byAddr ==> s.byAddr[addr] in s.infos
  {
    if addr !in s.byAddr then s else WithInfo(s, s.byAddr[addr], s.infos[s.byAddr[addr]].(services := services))
  }

  // ---------------------------------------------------------------------------------------------
  // Collisions in the tried table

  /** A remembered collision that is still known faces an occupied slot, of a known address. */
  lemma CollisionFaces(s: State, id: Id)
    requires Consistent(s) && id in s.collisions && id in s.infos
    ensures var slot := s.h.triedSlot(s.infos[id].addr); slot in s.triedTable && s.triedTable[slot] in s.infos
  {
    hide Hashing.Valid, Named, Shuffled, InfoOk, CountsMatch;
    TablesKnown(s, s.h.triedSlot(s.infos[id].addr));
  }

  /** What becomes of one remembered collision: `replace` the old address by the new one, `erase` the
      collision, or neither. */
  datatype Verdict = Verdict(replace: bool, erase: bool)

  function Judged(s: State, id: Id, valid: bool, now: int): Verdict
    requires id in s.infos ==> s.h.triedSlot(s.infos[id].addr) in s.triedTable ==> s.triedTable[s.h.triedSlot(s.infos[id].addr)] in s.infos
  {
    if id !in s.infos || !valid then Verdict(false, true)
    else
      var slot := s.h.triedSlot(s.infos[id].addr);
      if slot !in s.triedTable then Verdict(true, true)
      else
        var there := s.infos[s.triedTable[slot]];
        if now - there.lastSuccess < 4 * HOUR then Verdict(false, true)
        else if now - there.lastTry < 4 * HOUR then
          if now - there.lastTry > MINUTE then Verdict(true, true) else Verdict(false, false)
        else if now - s.infos[id].lastSuccess > 40 * MINUTE then Verdict(true, true)
        else Verdict(false, false)
  }

  ghost function ResolvedOne(s: State, id: Id, valid: bool, now: int): State
    requires Consistent(s) && id in s.collisions && now > 0
  {
    if id in s.infos then
      CollisionFaces(s, id);
      var v := Judged(s, id, valid, now);
      MadeGoodKeeps(s, s.infos[id].addr, false, now);
      var t := if v.replace then MadeGood(s, s.infos[id].addr, false, now).0 else s;
      if v.erase then t.(collisions := t.collisions - {id}) else t
    else s.(collisions := s.collisions - {id})
  }

  lemma ResolvedOneKeeps(s: State, id: Id, valid: bool, now: int)
    requires Consistent(s) && id in s.collisions && now > 0
    ensures var t := ResolvedOne(s, id, valid, now);
            Consistent(t) && Grown(s, t) && s.collisions - {id} <= t.collisions <= s.collisions
  {
    hide Hashing.Valid, Nearly, MadeGood, Judged, Grown, Named, Shuffled, TablesOk, Counted, CollisionsOk;
    GrownSelf(s);
    CollisionErased(s, id);
    if id in s.infos {
      CollisionFaces(s, id);
      MadeGoodKeeps(s, s.infos[id].addr, false, now);
      var t := MadeGood(s, s.infos[id].addr, false, now).0;
      CollisionErased(t, id);
      GrownTransitive(s, t, t.(collisions := t.collisions - {id}));
    }
  }

  /** The collisions of `todo` resolved one after the other, each at the time the clock then shows. */
  ghost function ResolvedAll(s: State, todo: set<Id>, valid: Addr -> bool, clock: Id -> int): State
    requires Consistent(s) && todo <= s.collisions && forall id :: clock(id) > 0
    decreases |todo|
  {
    if todo == {} then s
    else
      var id := Least(todo);
      var ok := id in s.infos && valid(s.infos[id].addr);
      ResolvedOneKeeps(s, id, ok, clock(id));
      ResolvedAll(ResolvedOne(s, id, ok, clock(id)), todo - {id}, valid, clock)
  }

  lemma ResolvedAllStep(s: State, todo: set<Id>, valid: Addr -> bool, clock: Id -> int, id: Id)
    requires Consistent(s) && todo <= s.collisions && forall id :: clock(id) > 0
    requires id in todo && forall other | other in todo :: id <= other
    ensures var r := ResolvedOne(s, id, id in s.infos && valid(s.infos[id].addr), clock(id));
            && Consistent(r) && todo - {id} <= r.collisions
            && ResolvedAll(s, todo, valid, clock) == ResolvedAll(r, todo - {id}, valid, clock)
  {
    hide Consistent, ResolvedOne;
    assert id == Least(todo);
    ResolvedOneKeeps(s, id, id in s.infos && valid(s.infos[id].addr), clock(id));
  }

  lemma NothingToResolve(s: State, valid: Addr -> bool, clock: Id -> int)
    requires Consistent(s) && forall id :: clock(id) > 0
    ensures ResolvedAll(s, {}, valid, clock) == s
  {
  }

  lemma {:induction false} ResolvedAllKeeps(s: State, todo: set<Id>, valid: Addr -> bool, clock: Id -> int)
    requires Consistent(s) && todo <= s.collisions && forall id :: clock(id) > 0
    ensures var t := ResolvedAll(s, todo, valid, clock);
            Consistent(t) && Grown(s, t) && s.collisions - todo <= t.collisions <= s.collisions
    decreases |todo|
  {
    hide Consistent, Grown, ResolvedOne;
    if todo == {} {
      GrownSelf(s);
    } else {
      var id := Least(todo);
      var ok := id in s.infos && valid(s.infos[id].addr);
      ResolvedOneKeeps(s, id, ok, clock(id));
      var r := ResolvedOne(s, id, ok, clock(id));
      ResolvedAllKeeps(r, todo - {id}, valid, clock);
      GrownTransitive(s, r, ResolvedAll(s, todo, valid, clock));
    }
  }

  lemma CollisionErased(s: State, id: Id)
    requires Consistent(s)
    ensures var t := s.(collisions := s.collisions - {id}); Consistent(t) && Grown(s, t)
  {
    hide Hashing.Valid, Nearly, Named, Shuffled, TablesOk, Counted, CollisionsOk;
    NearlyFacts(s, {}, {}, {});
    var t := s.(collisions := s.collisions - {id});
    CollisionsFrame(s, t, {}, {});
    OtherFields(s, t);
  }

  // ---------------------------------------------------------------------------------------------
  // Runs

  /** The operations on the manager.  Resolving collisions is a sequence of `Resolve`, one for each
      remembered collision; selecting one may `Forget` a collision of an unknown id. */
  datatype Op =
    | Add(a: Announcement, routable: bool, source: nat, penalty: int, now: int, later: int, lucky: bool)
    | Good(addr: Addr, time: int)
    | Attempt(addr: Addr, countFailure: bool, time: int)
    | Connected(addr: Addr, time: int)
    | SetServices(addr: Addr, services: set<nat>)
    | Resolve(id: Id, valid: bool, now: int)
    | Forget(id: Id)

  /** Times are positive, and collisions are picked from those remembered. */
  predicate Allowed(s: State, op: Op) {
    match op
    case Good(_, time) => time > 0
    case Attempt(_, _, time) => time > 0
    case Resolve(id, _, now) => id in s.collisions && now > 0
    case _ => true
  }

  ghost function Apply(s: State, op: Op): State
    requires Consistent(s) && Allowed(s, op)
  {
    match op
    case Add(a, routable, source, penalty, now, later, lucky) => AddedSingle(s, a, routable, source, penalty, now, later, lucky).0
    case Good(addr, time) => MadeGood(s, addr, true, time).0
    case Attempt(addr, countFailure, time) => Known(s, addr); Attempted(s, addr, countFailure, time)
    case Connected(addr, time) => Known(s, addr); ConnectedAt(s, addr, time)
    case SetServices(addr, services) => Known(s, addr); ServicesSet(s, addr, services)
    case Resolve(id, valid, now) => ResolvedOne(s, id, valid, now)
    case Forget(id) => if id in s.infos then s else s.(collisions := s.collisions - {id})
  }

  lemma Known(s: State, addr: Addr)
    requires Consistent(s)
    ensures addr in s.byAddr ==> s.byAddr[addr] in s.infos
  {
    hide Hashing.Valid;
    if addr in s.byAddr {
      KnownAddr(s, addr);
    }
  }

  lemma TouchKeeps(s: State, op: Op)
    requires Consistent(s) && Allowed(s, op) && (op.Attempt? || op.Connected? || op.SetServices?)
    ensures Consistent(Apply(s, op)) && Grown(s, Apply(s, op))
  {
    hide Hashing.Valid, Nearly, Grown, Named, Shuffled, TablesOk, Counted, CollisionsOk;
    GrownSelf(s);
    if op.addr in s.byAddr {
      KnownAddr(s, op.addr);
      var id := s.byAddr[op.addr];
      InfoTimes(s, id);
      var t := Apply(s, op);
      TouchedKeeps(s, id, t.infos[id]);
    }
  }

  /** Every operation keeps the manager consistent and never empties a slot of the tried table. */
  lemma ApplyKeeps(s: State, op: Op)
    requires Consistent(s) && Allowed(s, op)
    ensures Consistent(Apply(s, op)) && Grown(s, Apply(s, op))
  {
    hide Hashing.Valid, Nearly, AddedSingle, MadeGood, Attempted, ConnectedAt, ServicesSet, ResolvedOne, Grown;
    match op {
      case Add(a, routable, source, penalty, now, later, lucky) => AddedSingleKeeps(s, a, routable, source, penalty, now, later, lucky);
      case Good(addr, time) => MadeGoodKeeps(s, addr, true, time);
      case Attempt(addr, countFailure, time) => TouchKeeps(s, op);
      case Connected(addr, time) => TouchKeeps(s, op);
      case SetServices(addr, services) => TouchKeeps(s, op);
      case Resolve(id, valid, now) => ResolvedOneKeeps(s, id, valid, now);
      case Forget(id) => GrownSelf(s); CollisionErased(s, id);
    }
  }

  ghost predicate Runs(s: State, ops: seq<Op>, t: State)
    decreases |ops|
  {
    if ops == [] then t == s
    else Consistent(s) && Allowed(s, ops[0]) && Runs(Apply(s, ops[0]), ops[1..], t)
  }

  lemma InitialConsistent(h: Hashing)
    requires h.Valid()
    ensures Consistent(Initial(h))
  {
    hide Hashing.Valid;
    var s := Initial(h);
    assert Untried(s) == {} && Tried(s) == {};
    assert forall net: nat :: OfNetwork(s, {}, net) == {};
  }

  /** Over every run: consistency holds throughout, tried slots once filled stay filled, and a remembered
      collision always faces an occupied slot. */
  lemma {:induction false} RunKeeps(s: State, ops: seq<Op>, t: State)
    requires Consistent(s) && Runs(s, ops, t)
    ensures Consistent(t) && Grown(s, t)
    ensures forall id | id in t.collisions && id in t.infos ::
              var slot := t.h.triedSlot(t.infos[id].addr); slot in t.triedTable && t.triedTable[slot] in t.infos
    decreases |ops|
  {
    hide Hashing.Valid, Nearly, Apply, Grown, Allowed;
    if ops == [] {
      GrownSelf(s);
      forall id | id in t.collisions && id in t.infos
        ensures var slot := t.h.triedSlot(t.infos[id].addr); slot in t.triedTable && t.triedTable[slot] in t.infos
      {
        CollisionFaces(t, id);
      }
    } else {
      ApplyKeeps(s, ops[0]);
      RunKeeps(Apply(s, ops[0]), ops[1..], t);
      GrownTransitive(s, Apply(s, ops[0]), t);
    }
  }

  /** The sizes that a consistency check compares: the random vector holds every address once, and each
      is counted as new or tried. */
  lemma SizesAgree(s: State)
    requires Consistent(s)
    ensures |s.random| == |s.infos| == s.nNew + s.nTried
  {
    hide Hashing.Valid, Named, TablesOk, InfoOk, CollisionsOk, OfNetwork;
    assert Untried(s) - {} == Untried(s);
    assert s.infos.Keys == Untried(s) + Tried(s) && Untried(s) !! Tried(s);
    RandomSize(s.random, s.infos.Keys);
  }

  lemma {:induction false} RandomSize(random: seq<Id>, ids: set<Id>)
    requires forall p | 0 <= p < |random| :: random[p] in ids
    requires forall id | id in ids :: id in random
    requires forall p, q | 0 <= p < q < |random| :: random[p] != random[q]
    ensures |random| == |ids|
  {
    if random == [] {
      assert ids == {};
    } else {
      var last := random[|random| - 1];
      RandomSize(random[..|random| - 1], ids - {last});
    }
  }
}
