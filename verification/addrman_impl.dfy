/**
 * The address manager itself, updated in place.
 *
 * Each method leaves the fields as module `AddrMan` says its operation does; the assertions that the
 * deletions and moves make about reference counts and tables hold on every call.
 */
module AddrManImpls {
  import opened Wrappers
  import opened Arithmetic
  import opened Sets
  import opened AddrMan
  import opened AddrManChecks

  class AddrManImpl {
    const h: Hashing
    var idCount: nat
    var infos: map<Id, Info>
    var byAddr: map<Addr, Id>
    var random: seq<Id>
    var nNew: int
    var nTried: int
    var newTable: Table
    var triedTable: Table
    var counts: map<nat, Count>
    var collisions: set<Id>
    var lastGood: int

    function Now(): State
      reads this
    {
      State(h, idCount, infos, byAddr, random, nNew, nTried, newTable, triedTable, counts, collisions, lastGood)
    }

    constructor (h: Hashing)
      requires h.Valid()
      ensures Now() == Initial(h) && Consistent(Now())
    {
      this.h := h;
      idCount, infos, byAddr, random, nNew, nTried := 0, map[], map[], [], 0, 0;
      newTable, triedTable, counts, collisions, lastGood := map[], map[], map[], {}, 1;
      InitialConsistent(h);
    }

    method CountNetwork(net: nat, untried: int, tried: int)
      modifies this`counts
      ensures counts == Bumped(old(counts), net, untried, tried)
    {
      var c := CountFor(counts, net);
      counts := counts[net := Count(c.untried + untried, c.tried + tried)];
    }

    method Create(addr: Addr, source: nat, services: set<nat>, time: int) returns (id: Id)
      modifies this
      ensures id == old(idCount) && Now() == Created(old(Now()), addr, source, services, time)
    {
      hide Bumped;
      id := idCount;
      idCount := idCount + 1;
      infos := infos[id := Info(addr, source, services, time, 0, 0, 0, 0, 0, false, |random|)];
      byAddr := byAddr[addr := id];
      random := random + [id];
      nNew := nNew + 1;
      CountNetwork(h.network(addr), 1, 0);
    }

    method SwapRandom(p: nat, q: nat)
      requires Shuffled(Now()) && p < |random| && q < |random|
      modifies this`infos, this`random
      ensures Now() == Swapped(old(Now()), p, q)
    {
      if p == q {
        return;
      }
      var i, j := random[p], random[q];
      assert i in infos && j in infos && infos[i].randomPos == p && infos[j].randomPos == q;
      infos := infos[i := infos[i].(randomPos := q)];
      infos := infos[j := infos[j].(randomPos := p)];
      random := random[p := j][q := i];
    }

    method Delete(id: Id)
      requires Shuffled(Now()) && id in infos && !infos[id].inTried && infos[id].references == 0
      modifies this
      ensures Now() == Deleted(old(Now()), id)
    {
      hide Bumped, Shuffled, Hashing.Valid;
      DeletedIs(Now(), id);
      var info := infos[id];
      SwapRandom(info.randomPos, |random| - 1);
      CountNetwork(h.network(info.addr), -1, 0);
      random := random[..|random| - 1];
      byAddr := byAddr - {info.addr};
      infos := infos - {id};
      nNew := nNew - 1;
    }

    /** Clear a slot of the new table. */
    method ClearNew(slot: Slot, ghost bare: set<Id>, ghost uncounted: set<Id>, ghost holes: set<Slot>)
      requires Nearly(Now(), bare, uncounted, holes) && (slot in newTable ==> newTable[slot] !in uncounted)
      modifies this
      ensures old(Shuffled(Now())) && old(slot in newTable ==> newTable[slot] in infos)
      ensures Now() == Cleared(old(Now()), slot)
    {
      hide Hashing.Valid, Nearly, Named, Shuffled, TablesOk, Counted, CollisionsOk, Deleted;
      NearlyFacts(Now(), bare, uncounted, holes);
      TablesKnown(Now(), slot);
      if slot in newTable {
        FreedKeeps(Now(), slot, bare, uncounted, holes);
        var id := newTable[slot];
        assert infos[id].references > 0;
        infos := infos[id := infos[id].(references := infos[id].references - 1)];
        newTable := newTable - {slot};
        NearlyFacts(Now(), bare + {id}, uncounted, holes);
        if infos[id].references == 0 {
          Delete(id);
        }
      }
    }

    /** Take all entries of an address out of the new table, going through the buckets from its own and
        stopping when none is left. */
    method RemoveFromNew(id: Id)
      requires Consistent(Now()) && id in infos && !infos[id].inTried
      modifies this`newTable, this`infos
      ensures newTable == WithoutId(old(newTable), id)
      ensures infos == old(infos)[id := old(infos)[id].(references := 0)]
    {
      hide Hashing.Valid, Nearly, Named, Shuffled, TablesOk, Counted, CollisionsOk, Occurrences, InfoOk, NotVisited;
      ghost var was := newTable;
      var info := infos[id];
      var start := h.newBucket(info.addr, info.source);
      RemoveStart(Now(), id, start);
      var n := 0;
      while n < NEW_BUCKETS && infos[id].references != 0
        invariant 0 <= n <= NEW_BUCKETS && newTable == NotVisited(was, id, start, n)
        invariant id in infos && infos == old(infos)[id := info.(references := infos[id].references)]
        invariant infos[id].references == |Occurrences(newTable, id)|
      {
        var bucket := (start + n) % NEW_BUCKETS;
        var slot := Slot(bucket, h.newPosition(info.addr, bucket));
        RemoveStep(h, info.addr, was, id, start, n);
        if slot in newTable && newTable[slot] == id {
          OccurrencesMinus(newTable, slot, id);
          newTable := newTable - {slot};
          infos := infos[id := infos[id].(references := infos[id].references - 1)];
        }
        n := n + 1;
      }
      RemoveEnd(h, info.addr, was, id, start, n, newTable);
    }

    /** The address no longer counts as new. */
    method Remove(id: Id)
      requires Consistent(Now()) && id in infos && !infos[id].inTried
      modifies this
      ensures Now() == Removed(old(Now()), id)
    {
      hide Hashing.Valid, Nearly, WithoutId;
      RemoveFromNew(id);
      nNew := nNew - 1;
      CountNetwork(h.network(infos[id].addr), -1, 0);
      assert infos[id].references == 0;
    }

    method Demote(slot: Slot)
      requires slot in triedTable && triedTable[slot] in infos
      modifies this
      ensures Now() == Demoted(old(Now()), slot)
    {
      var gone := triedTable[slot];
      infos := infos[gone := infos[gone].(inTried := false)];
      triedTable := triedTable - {slot};
      nTried := nTried - 1;
      CountNetwork(h.network(infos[gone].addr), 0, -1);
    }

    method Enter(slot: Slot, id: Id)
      requires slot !in newTable && id in infos
      modifies this
      ensures Now() == Entered(old(Now()), slot, id)
    {
      infos := infos[id := infos[id].(references := 1)];
      newTable := newTable[slot := id];
      nNew := nNew + 1;
      CountNetwork(h.network(infos[id].addr), 1, 0);
    }

    method Promote(id: Id)
      requires id in infos && h.triedSlot(infos[id].addr) !in triedTable
      modifies this
      ensures Now() == Promoted(old(Now()), id)
    {
      triedTable := triedTable[h.triedSlot(infos[id].addr) := id];
      nTried := nTried + 1;
      infos := infos[id := infos[id].(inTried := true)];
      CountNetwork(h.network(infos[id].addr), 0, 1);
    }

    /** Move an address from the new table to the tried table. */
    method MakeTried(id: Id)
      requires Consistent(Now()) && id in infos && !infos[id].inTried && infos[id].lastSuccess > 0
      modifies this
      ensures Now() == MadeTried(old(Now()), id)
    {
      hide Hashing.Valid, Nearly, Evicted, Promoted;
      RemovedKeeps(Now(), id);
      Remove(id);
      var slot := h.triedSlot(infos[id].addr);
      if slot in triedTable {
        EvictedFacts(Now(), slot, id);
        Evict(slot, id);
      }
      Promote(id);
    }

    /** Move the tried address in a slot back to the new table. */
    method Evict(slot: Slot, ghost id: Id)
      requires Nearly(Now(), {id}, {id}, {}) && slot in triedTable && id in infos && !infos[id].inTried && infos[id].references == 0
      modifies this
      ensures Now() == Evicted(old(Now()), slot, id)
    {
      hide Hashing.Valid, Nearly, Shuffled, Cleared, Entered;
      DemotedKeeps(Now(), slot, id);
      var gone := triedTable[slot];
      Demote(slot);
      var back := h.NewSlot(infos[gone].addr, infos[gone].source);
      EvictRoom(Now(), back, gone, id, slot);
      ClearNew(back, {id, gone}, {id, gone}, {slot});
      Enter(back, gone);
    }

    /** Give a slot of the new table to an address, whatever was there. */
    method Occupy(slot: Slot, id: Id, ghost bare: set<Id>)
      requires Nearly(Now(), bare, {}, {}) && id in infos && (slot in newTable ==> newTable[slot] != id)
      modifies this
      ensures old(Shuffled(Now())) && old(slot in newTable ==> newTable[slot] in infos)
      ensures id in Cleared(old(Now()), slot).infos && Now() == Filled(Cleared(old(Now()), slot), slot, id)
    {
      hide Hashing.Valid, Nearly, Named, Shuffled, TablesOk, Counted, CollisionsOk, Cleared, Deleted, Filled;
      NearlyFacts(Now(), bare, {}, {});
      TablesKnown(Now(), slot);
      ClearedForgets(Now(), slot);
      ClearNew(slot, bare, {}, {});
      Fill(slot, id);
    }

    method Fill(slot: Slot, id: Id)
      requires id in infos
      modifies this`infos, this`newTable
      ensures Now() == Filled(old(Now()), slot, id)
    {
      infos := infos[id := infos[id].(references := infos[id].references + 1)];
      newTable := newTable[slot := id];
    }

    /** Put an address into its slot of the new table for a source, if it may have it. */
    method Place(id: Id, source: nat, now: int, ghost bare: set<Id>) returns (inserted: bool)
      requires Nearly(Now(), bare, {}, {}) && id in infos && !infos[id].inTried && bare <= {id}
      requires infos[id].references < MAX_REFERENCES && (bare == {} || infos[id].references == 0)
      modifies this
      ensures (Now(), inserted) == Placed(old(Now()), id, source, now, bare)
    {
      hide Hashing.Valid, Nearly, Named, Shuffled, TablesOk, Counted, CollisionsOk, Cleared, Deleted, IsTerrible;
      var slot := h.NewSlot(infos[id].addr, source);
      NearlyFacts(Now(), bare, {}, {});
      TablesKnown(Now(), slot);
      inserted := slot !in newTable;
      if slot !in newTable || newTable[slot] != id {
        if !inserted {
          var there := infos[newTable[slot]];
          if IsTerrible(there, now) || (there.references > 1 && infos[id].references == 0) {
            inserted := true;
          }
        }
        if inserted {
          Occupy(slot, id, bare);
        } else if infos[id].references == 0 {
          Delete(id);
        }
      }
    }

    /** Handle one announced address; `lucky` is the outcome of the random test, and `later` the time at which an
        entry in the way is judged. */
    method AddSingle(a: Announcement, routable: bool, source: nat, given: int, now: int, later: int, lucky: bool) returns (added: bool)
      requires Consistent(Now())
      modifies this
      ensures (Now(), added) == AddedSingle(old(Now()), a, routable, source, given, now, later, lucky)
      ensures Consistent(Now())
    {
      hide Hashing.Valid, Nearly, Placed, Created;
      AddedSingleKeeps(Now(), a, routable, source, given, now, later, lucky);
      if !routable {
        return false;
      }
      var penalty := if h.host(a.addr) == source then 0 else given;
      if a.addr in byAddr {
        KnownAddr(Now(), a.addr);
        var id := byAddr[a.addr];
        InfoTimes(Now(), id);
        TouchedKeeps(Now(), id, Renewed(infos[id], a, penalty, now));
        infos := infos[id := Renewed(infos[id], a, penalty, now)];
        var info := infos[id];
        if a.time <= info.time {
          return false;
        }
        if info.inTried {
          return false;
        }
        if info.references == MAX_REFERENCES {
          return false;
        }
        if info.references > 0 && !lucky {
          return false;
        }
        FewReferences(Now(), id);
        added := Place(id, source, later, {});
      } else {
        CreatedKeeps(Now(), a.addr, source, a.services, Max(0, a.time - penalty));
        CreatedEntry(Now(), a.addr, source, a.services, Max(0, a.time - penalty));
        var id := Create(a.addr, source, a.services, Max(0, a.time - penalty));
        added := Place(id, source, later, {id});
      }
    }

    /** Note a successful connection. */
    method MarkGood(addr: Addr, test: bool, time: int) returns (moved: bool)
      requires Consistent(Now()) && time > 0
      modifies this
      ensures (Now(), moved) == MadeGood(old(Now()), addr, test, time)
      ensures Consistent(Now())
    {
      hide Hashing.Valid, Nearly, MadeTried, Grown;
      MadeGoodKeeps(Now(), addr, test, time);
      if addr !in byAddr {
        lastGood := time;
        return false;
      }
      KnownAddr(Now(), addr);
      var id := byAddr[addr];
      NotedKeeps(Now(), id, time);
      lastGood := time;
      infos := infos[id := infos[id].(lastSuccess := time, lastTry := time, attempts := 0)];
      if infos[id].inTried {
        return false;
      }
      InfoTimes(Now(), id);
      assert infos[id].references > 0;
      if test && h.triedSlot(infos[id].addr) in triedTable {
        if |collisions| < MAX_COLLISIONS {
          collisions := collisions + {id};
        }
        return false;
      }
      MakeTried(id);
      moved := true;
    }

    method Attempt(addr: Addr, countFailure: bool, time: int)
      requires Consistent(Now()) && time > 0
      modifies this
      ensures Now() == Apply(old(Now()), Op.Attempt(addr, countFailure, time)) && Consistent(Now())
    {
      hide Hashing.Valid, Nearly;
      ApplyKeeps(Now(), Op.Attempt(addr, countFailure, time));
      Known(Now(), addr);
      if addr in byAddr {
        var id := byAddr[addr];
        infos := infos[id := infos[id].(lastTry := time)];
        if countFailure && infos[id].lastCount < lastGood {
          infos := infos[id := infos[id].(lastCount := time, attempts := infos[id].attempts + 1)];
        }
      }
    }

    method Connected(addr: Addr, time: int)
      requires Consistent(Now())
      modifies this
      ensures Now() == Apply(old(Now()), Op.Connected(addr, time)) && Consistent(Now())
    {
      hide Hashing.Valid, Nearly;
      ApplyKeeps(Now(), Op.Connected(addr, time));
      Known(Now(), addr);
      if addr in byAddr {
        var id := byAddr[addr];
        if time - infos[id].time > 20 * MINUTE {
          infos := infos[id := infos[id].(time := time)];
        }
      }
    }

    method SetServices(addr: Addr, services: set<nat>)
      requires Consistent(Now())
      modifies this
      ensures Now() == Apply(old(Now()), Op.SetServices(addr, services)) && Consistent(Now())
    {
      hide Hashing.Valid, Nearly;
      ApplyKeeps(Now(), Op.SetServices(addr, services));
      Known(Now(), addr);
      if addr in byAddr {
        infos := infos[byAddr[addr] := infos[byAddr[addr]].(services := services)];
      }
    }

    /** Decide about one remembered collision. */
    method ResolveOne(id: Id, valid: bool, now: int)
      requires Consistent(Now()) && id in collisions && now > 0
      modifies this
      ensures Now() == ResolvedOne(old(Now()), id, valid, now) && Consistent(Now())
    {
      hide Hashing.Valid, Nearly, MadeGood, Judged, Grown;
      ResolvedOneKeeps(Now(), id, valid, now);
      var erase := true;
      if id in infos {
        CollisionFaces(Now(), id);
        var verdict := Judged(Now(), id, valid, now);
        MadeGoodKeeps(Now(), infos[id].addr, false, now);
        if verdict.replace {
          var moved := MarkGood(infos[id].addr, false, now);
        }
        erase := verdict.erase;
      }
      if erase {
        collisions := collisions - {id};
      }
    }

    /** Go through all remembered collisions, in increasing order of their ids; `clock` is the time at
        which each is looked at. */
    method ResolveCollisions(valid: Addr -> bool, clock: Id -> int)
      requires Consistent(Now()) && forall id :: clock(id) > 0
      modifies this
      ensures Now() == ResolvedAll(old(Now()), old(collisions), valid, clock) && Consistent(Now())
    {
      hide *;
      ghost var start := Now();
      NowFields();
      var todo := collisions;
      while todo != {}
        invariant Consistent(Now()) && todo <= Now().collisions
        invariant ResolvedAll(Now(), todo, valid, clock) == ResolvedAll(start, start.collisions, valid, clock)
        decreases |todo|
      {
        NowFields();
        var id := Smallest(todo);
        var ok := id in infos && valid(infos[id].addr);
        ResolvedAllStep(Now(), todo, valid, clock, id);
        ResolveOne(id, ok, clock(id));
        todo := todo - {id};
      }
      NothingToResolve(Now(), valid, clock);
    }

    lemma NowFields()
      ensures Now().collisions == collisions && Now().infos == infos
    {
    }

    /** The consistency check: zero exactly if what it looks at is in order and there is a key. */
    method Check(nullKey: bool) returns (code: int)
      requires InRange(Now())
      ensures code == 0 <==> Checked(Now()) && !nullKey
      ensures code != 0 ==> Violates(Now(), nullKey, code)
    {
      code := CheckAddrman(Now(), nullKey);
    }

    /** The address that stands in the way of a remembered collision, if it is still known.  The lookup
        never meets an empty slot. */
    method SelectTriedCollision(pick: Id) returns (r: Option<Info>)
      requires Consistent(Now()) && (collisions != {} ==> pick in collisions)
      modifies this`collisions
      ensures Consistent(Now())
      ensures r.Some? <==> old(collisions) != {} && pick in infos
      ensures r.Some? ==> collisions == old(collisions) && r.value.inTried && h.triedSlot(r.value.addr) == h.triedSlot(infos[pick].addr)
      ensures r.None? ==> collisions == old(collisions) - {pick}
    {
      hide Hashing.Valid, Nearly, Grown;
      if collisions == {} {
        return None;
      }
      if pick !in infos {
        CollisionErased(Now(), pick);
        collisions := collisions - {pick};
        return None;
      }
      CollisionFaces(Now(), pick);
      var slot := h.triedSlot(infos[pick].addr);
      NearlyFacts(Now(), {}, {}, {});
      TriedSlotOf(Now(), slot);
      r := Some(infos[triedTable[slot]]);
    }
  }

  lemma CreatedEntry(s: State, addr: Addr, source: nat, services: set<nat>, time: int)
    ensures var t := Created(s, addr, source, services, time);
            && s.idCount in t.infos && !t.infos[s.idCount].inTried && t.infos[s.idCount].references == 0
  {
  }

  lemma TriedSlotOf(s: State, slot: Slot)
    requires TablesOk(s) && slot in s.triedTable
    ensures s.triedTable[slot] in s.infos && s.infos[s.triedTable[slot]].inTried && s.h.triedSlot(s.infos[s.triedTable[slot]].addr) == slot
  {
    assert TriedEntryOk(s, slot, s.triedTable[slot]);
  }

  /** A table without the entries of `id` in the `n` buckets from `start` on, around the end. */
  function NotVisited(table: Table, id: Id, start: nat, n: nat): Table {
    map slot | slot in table && !(table[slot] == id && Visited(slot.bucket, start, n)) :: table[slot]
  }

  predicate Visited(bucket: nat, start: nat, n: nat) {
    (bucket + NEW_BUCKETS - start) % NEW_BUCKETS < n
  }

  lemma RemoveStart(s: State, id: Id, start: nat)
    requires Consistent(s) && id in s.infos && start == s.h.newBucket(s.infos[id].addr, s.infos[id].source)
    ensures start < NEW_BUCKETS && NotVisited(s.newTable, id, start, 0) == s.newTable
    ensures s.infos[id].references == |Occurrences(s.newTable, id)|
    ensures EntriesInPlace(s.h, s.infos[id].addr, s.newTable, id)
  {
    hide Named, Shuffled, Counted, CollisionsOk, Occurrences;
    assert InfoOk(s, id, s.infos[id], {});
    NearlyFacts(s, {}, {}, {});
    PlacesOf(s, id);
    NoneVisited(s.newTable, id, start);
  }

  lemma NoneVisited(table: Table, id: Id, start: nat)
    requires start < NEW_BUCKETS
    ensures NotVisited(table, id, start, 0) == table
  {
  }

  lemma PlacesOf(s: State, id: Id)
    requires TablesOk(s) && id in s.infos
    ensures EntriesInPlace(s.h, s.infos[id].addr, s.newTable, id)
  {
    forall slot | slot in s.newTable && s.newTable[slot] == id
      ensures slot.bucket < NEW_BUCKETS && slot.position == s.h.newPosition(s.infos[id].addr, slot.bucket)
    {
      assert NewEntryOk(s, slot, s.newTable[slot]);
    }
  }

  /** Each entry of an address stands at its position in a bucket. */
  predicate EntriesInPlace(h: Hashing, addr: Addr, table: Table, id: Id) {
    forall slot | slot in table && table[slot] == id :: slot.bucket < NEW_BUCKETS && slot.position == h.newPosition(addr, slot.bucket)
  }

  lemma RemoveStep(h: Hashing, addr: Addr, table: Table, id: Id, start: nat, n: nat)
    requires start < NEW_BUCKETS && n < NEW_BUCKETS && EntriesInPlace(h, addr, table, id)
    ensures var bucket := (start + n) % NEW_BUCKETS;
            var slot := Slot(bucket, h.newPosition(addr, bucket));
            var t := NotVisited(table, id, start, n);
            NotVisited(table, id, start, n + 1) == if slot in t && t[slot] == id then t - {slot} else t
  {
    var bucket := (start + n) % NEW_BUCKETS;
    forall b: nat | b < NEW_BUCKETS
      ensures Visited(b, start, n + 1) <==> Visited(b, start, n) || b == bucket
    {
    }
  }

  lemma RemoveEnd(h: Hashing, addr: Addr, table: Table, id: Id, start: nat, n: nat, t: Table)
    requires start < NEW_BUCKETS && EntriesInPlace(h, addr, table, id) && t == NotVisited(table, id, start, n)
    requires n == NEW_BUCKETS || |Occurrences(t, id)| == 0
    ensures t == WithoutId(table, id) && |Occurrences(t, id)| == 0
  {
    if n == NEW_BUCKETS {
      assert Occurrences(t, id) == {};
    } else {
      assert Occurrences(t, id) == {};
      forall slot | slot in t
        ensures t[slot] != id
      {
        assert t[slot] == id ==> slot in Occurrences(t, id);
      }
    }
  }
}
