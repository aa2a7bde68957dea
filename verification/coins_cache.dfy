/**
 * One coins cache, updated in place: a map of entries, the doubly linked list threaded through its
 * flagged entries, and the running memory count.
 */
module CoinsCaches {
  import opened Wrappers
  import opened Coins
  import opened Sequences

  /** A link of the list: the other entries are named by their keys. */
  datatype Ptr = Null | Sentinel | At(key: Outpoint)

  datatype Entry = Entry(slot: Slot, prev: Ptr, next: Ptr)

  type Entries = map<Outpoint, Entry>

  function SlotsOf(entries: Entries): Slots {
    map o | o in entries :: entries[o].slot
  }

  // ---------------------------------------------------------------------------------------------
  // The list of flagged entries

  function PtrAt(order: seq<Outpoint>, i: int): Ptr {
    if 0 <= i < |order| then At(order[i]) else Sentinel
  }

  predicate ListedAt(entries: Entries, order: seq<Outpoint>, i: nat)
    requires i < |order|
  {
    order[i] in entries && entries[order[i]].prev == PtrAt(order, i - 1) && entries[order[i]].next == PtrAt(order, i + 1)
  }

  /** An entry has flags if and only if it is listed, and links only then. */
  predicate FlagsMatch(entry: Entry, order: seq<Outpoint>, o: Outpoint) {
    if o in order then entry.slot.Flagged()
    else !entry.slot.Flagged() && entry.prev == Null && entry.next == Null
  }

  /** The list runs through exactly the flagged entries, in the order given, both ways. */
  predicate Linked(entries: Entries, first: Ptr, last: Ptr, order: seq<Outpoint>) {
    && NoDuplicates(order)
    && (forall o | o in entries :: FlagsMatch(entries[o], order, o))
    && (forall i | 0 <= i < |order| :: ListedAt(entries, order, i))
    && first == PtrAt(order, 0) && last == PtrAt(order, |order| - 1)
  }

  function Without(order: seq<Outpoint>, o: Outpoint): seq<Outpoint> {
    if order == [] then []
    else if order[0] == o then order[1..]
    else [order[0]] + Without(order[1..], o)
  }

  lemma {:induction false} WithoutAt(order: seq<Outpoint>, k: nat)
    requires NoDuplicates(order) && k < |order|
    ensures Without(order, order[k]) == order[..k] + order[k + 1..]
  {
    if k > 0 {
      WithoutAt(order[1..], k - 1);
      assert order[0] != order[k] && order[1..][k - 1] == order[k];
      assert order[..k] == [order[0]] + order[1..][..k - 1] && order[1..][k..] == order[k + 1..];
    }
  }

  lemma {:induction false} NotInOrder(order: seq<Outpoint>, o: Outpoint)
    requires o !in order
    ensures Without(order, o) == order
  {
    if order != [] {
      NotInOrder(order[1..], o);
    }
  }

  function Flags(slot: Slot, isDirty: bool, isFresh: bool): Slot {
    Slot(slot.coin, slot.isDirty || isDirty, slot.isFresh || isFresh)
  }

  function NextSet(entries: Entries, p: Ptr, to: Ptr): Entries {
    if p.At? && p.key in entries then entries[p.key := entries[p.key].(next := to)] else entries
  }

  function PrevSet(entries: Entries, p: Ptr, to: Ptr): Entries {
    if p.At? && p.key in entries then entries[p.key := entries[p.key].(prev := to)] else entries
  }

  /** Changing flags of a listed entry leaves the list alone. */
  lemma FlagLinked(entries: Entries, first: Ptr, last: Ptr, order: seq<Outpoint>, o: Outpoint, slot: Slot)
    requires Linked(entries, first, last, order) && o in entries
    requires slot.Flagged() == entries[o].slot.Flagged()
    ensures Linked(entries[o := entries[o].(slot := slot)], first, last, order)
  {
    var e := entries[o := entries[o].(slot := slot)];
    assert FlagsMatch(entries[o], order, o);
    forall i | 0 <= i < |order|
      ensures ListedAt(e, order, i)
    {
      assert ListedAt(entries, order, i);
    }
  }

  lemma AppendLinked(entries: Entries, first: Ptr, last: Ptr, order: seq<Outpoint>, o: Outpoint, slot: Slot)
    requires Linked(entries, first, last, order) && o in entries && !entries[o].slot.Flagged() && slot.Flagged()
    ensures last.At? ==> last.key in entries && last.key != o
    ensures !last.Null?
    ensures Linked(NextSet(entries, last, At(o))[o := Entry(slot, last, Sentinel)],
                   if last.Sentinel? then At(o) else first, At(o), order + [o])
  {
    var e, r, n := NextSet(entries, last, At(o))[o := Entry(slot, last, Sentinel)], order + [o], |order|;
    assert FlagsMatch(entries[o], order, o);
    assert n > 0 ==> ListedAt(entries, order, n - 1);
    forall i | 0 <= i < |r|
      ensures ListedAt(e, r, i)
    {
      assert i < n ==> ListedAt(entries, order, i);
      assert i < n ==> r[i] == order[i];
    }
    forall x | x in e
      ensures FlagsMatch(e[x], r, x)
    {
      assert x != o ==> FlagsMatch(entries[x], order, x);
      assert x in r <==> x in order || x == o;
    }
    hide ListedAt, FlagsMatch, NextSet;
  }

  /** Where a listed entry stands, and that its neighbours are listed too. */
  lemma LinkedAt(entries: Entries, first: Ptr, last: Ptr, order: seq<Outpoint>, o: Outpoint) returns (k: nat)
    requires Linked(entries, first, last, order) && o in entries && entries[o].slot.Flagged()
    ensures k < |order| && order[k] == o
    ensures entries[o].prev == PtrAt(order, k - 1) && entries[o].next == PtrAt(order, k + 1)
    ensures k > 0 ==> order[k - 1] in entries && order[k - 1] != o
    ensures k + 1 < |order| ==> order[k + 1] in entries && order[k + 1] != o
  {
    assert FlagsMatch(entries[o], order, o);
    k :| 0 <= k < |order| && order[k] == o;
    assert ListedAt(entries, order, k);
    assert k > 0 ==> ListedAt(entries, order, k - 1);
    assert k + 1 < |order| ==> ListedAt(entries, order, k + 1);
  }

  /** The entries once `o` is unlinked and holds `slot`. */
  function Cut(entries: Entries, o: Outpoint, slot: Slot): Entries
    requires o in entries
  {
    var prev, next := entries[o].prev, entries[o].next;
    NextSet(PrevSet(entries, next, prev), prev, next)[o := Entry(slot, Null, Null)]
  }

  lemma CutLinked(entries: Entries, first: Ptr, last: Ptr, order: seq<Outpoint>, o: Outpoint, slot: Slot)
    requires Linked(entries, first, last, order) && o in entries && entries[o].slot.Flagged() && !slot.Flagged()
    ensures var prev, next := entries[o].prev, entries[o].next;
            Linked(Cut(entries, o, slot), if prev.Sentinel? then next else first,
                   if next.Sentinel? then prev else last, Without(order, o))
  {
    hide ListedAt, FlagsMatch, Cut, NoDuplicates, Without;
    var e := Cut(entries, o, slot);
    var k := LinkedAt(entries, first, last, order, o);
    WithoutAt(order, k);
    var r := Without(order, o);
    CutEnds(order, k);
    forall i | 0 <= i < |r|
      ensures ListedAt(e, r, i)
    {
      CutListedAt(entries, first, last, order, k, slot, i);
    }
    forall x | x in e
      ensures FlagsMatch(e[x], r, x)
    {
      CutFlags(entries, first, last, order, k, slot, x);
    }
  }

  lemma CutFlags(entries: Entries, first: Ptr, last: Ptr, order: seq<Outpoint>, k: nat, slot: Slot, x: Outpoint)
    requires Linked(entries, first, last, order) && k < |order| && order[k] in entries && !slot.Flagged()
    ensures var e := Cut(entries, order[k], slot);
            x in e ==> FlagsMatch(e[x], order[..k] + order[k + 1..], x)
  {
    assert x in entries ==> FlagsMatch(entries[x], order, x);
    InCut(order, k, x);
    assert ListedAt(entries, order, k);
    hide Linked;
  }

  lemma CutEnds(order: seq<Outpoint>, k: nat)
    requires NoDuplicates(order) && k < |order|
    ensures var r, n := order[..k] + order[k + 1..], |order|;
            && NoDuplicates(r)
            && PtrAt(r, 0) == PtrAt(order, if k == 0 then 1 else 0)
            && PtrAt(r, |r| - 1) == PtrAt(order, if k == n - 1 then k - 1 else n - 1)
  {
  }

  lemma InCut(order: seq<Outpoint>, k: nat, x: Outpoint)
    requires NoDuplicates(order) && k < |order|
    ensures x in order[..k] + order[k + 1..] <==> x in order && x != order[k]
  {
    assert order == order[..k] + [order[k]] + order[k + 1..];
  }

  lemma CutListedAt(entries: Entries, first: Ptr, last: Ptr, order: seq<Outpoint>, k: nat, slot: Slot, i: nat)
    requires Linked(entries, first, last, order) && k < |order| && i < |order| - 1 && order[k] in entries
    ensures ListedAt(Cut(entries, order[k], slot), order[..k] + order[k + 1..], i)
  {
    var r, j := order[..k] + order[k + 1..], if i < k then i else i + 1;
    assert ListedAt(entries, order, k) && ListedAt(entries, order, j);
    assert r[i] == order[j];
    CutEntry(entries, order, k, j, slot);
    hide Cut, Linked;
    CutPtrs(order, k, i);
  }

  lemma CutEntry(entries: Entries, order: seq<Outpoint>, k: nat, j: nat, slot: Slot)
    requires NoDuplicates(order) && k < |order| && j < |order| && j != k
    requires ListedAt(entries, order, k) && ListedAt(entries, order, j)
    ensures var o, x, e := order[k], order[j], Cut(entries, order[k], slot);
            && x in e
            && e[x].prev == (if j == k + 1 then entries[o].prev else entries[x].prev)
            && e[x].next == (if j == k - 1 then entries[o].next else entries[x].next)
  {
    var prev, next := entries[order[k]].prev, entries[order[k]].next;
    assert next == At(order[j]) <==> j == k + 1;
    assert prev == At(order[j]) <==> j == k - 1;
  }

  lemma CutPtrs(order: seq<Outpoint>, k: nat, i: nat)
    requires k < |order| && i < |order| - 1
    ensures var r, j := order[..k] + order[k + 1..], if i < k then i else i + 1;
            && PtrAt(r, i - 1) == (if j == k + 1 then PtrAt(order, k - 1) else PtrAt(order, j - 1))
            && PtrAt(r, i + 1) == (if j == k - 1 then PtrAt(order, k + 1) else PtrAt(order, j + 1))
  {
    var r := order[..k] + order[k + 1..];
    assert i > 0 ==> r[i - 1] == order[if i - 1 < k then i - 1 else i];
    assert i + 1 < |r| ==> r[i + 1] == order[if i + 1 < k then i + 1 else i + 2];
  }

  lemma InsertLinked(entries: Entries, first: Ptr, last: Ptr, order: seq<Outpoint>, o: Outpoint, slot: Slot)
    requires Linked(entries, first, last, order) && o !in entries && !slot.Flagged()
    ensures Linked(entries[o := Entry(slot, Null, Null)], first, last, order)
  {
    var e := entries[o := Entry(slot, Null, Null)];
    forall i | 0 <= i < |order|
      ensures ListedAt(e, order, i) && order[i] != o
    {
      assert ListedAt(entries, order, i);
    }
  }

  lemma NotListed(entries: Entries, first: Ptr, last: Ptr, order: seq<Outpoint>, o: Outpoint)
    requires Linked(entries, first, last, order) && o in entries && !entries[o].slot.Flagged()
    ensures Without(order, o) == order
  {
    assert FlagsMatch(entries[o], order, o);
    NotInOrder(order, o);
  }

  lemma DropLinked(entries: Entries, first: Ptr, last: Ptr, order: seq<Outpoint>, o: Outpoint)
    requires Linked(entries, first, last, order) && o in entries && !entries[o].slot.Flagged()
    ensures Linked(entries - {o}, first, last, order)
  {
    assert FlagsMatch(entries[o], order, o);
    forall i | 0 <= i < |order|
      ensures ListedAt(entries - {o}, order, i)
    {
      assert ListedAt(entries, order, i);
    }
  }

  // ---------------------------------------------------------------------------------------------
  // The memory count

  ghost function Total(slots: Slots): nat
    decreases |slots|
  {
    if slots == map[] then 0
    else
      var o :| o in slots;
      slots[o].coin.Usage() + Total(slots - {o})
  }

  lemma {:induction false} TotalWithout(slots: Slots, o: Outpoint)
    requires o in slots
    ensures Total(slots) == slots[o].coin.Usage() + Total(slots - {o})
    decreases |slots|
  {
    var k :| k in slots && Total(slots) == slots[k].coin.Usage() + Total(slots - {k});
    if k != o {
      TotalWithout(slots - {k}, o);
      TotalWithout(slots - {o}, k);
      assert slots - {k} - {o} == slots - {o} - {k};
    }
  }

  lemma TotalWith(slots: Slots, o: Outpoint, slot: Slot)
    ensures Total(slots[o := slot]) == slot.coin.Usage() + Total(slots - {o})
    ensures o !in slots ==> slots - {o} == slots
  {
    TotalWithout(slots[o := slot], o);
    assert slots[o := slot] - {o} == slots - {o};
  }

  // ---------------------------------------------------------------------------------------------
  // Part of a batch: the entries in `done` have been dealt with

  function Put(slots: Slots, o: Outpoint, v: Option<Slot>): Slots {
    match v
    case None => slots - {o}
    case Some(slot) => slots[o := slot]
  }

  lemma PutSame(slots: Slots, o: Outpoint)
    ensures Put(slots, o, Find(slots, o)) == slots
  {
  }

  function WrittenFor(parent: Slots, child: Slots, done: set<Outpoint>): Slots {
    map o | o in parent.Keys + child.Keys && (if o in done then Written(parent, child, o).Some? else o in parent)
      :: if o in done then Written(parent, child, o).value else parent[o]
  }

  lemma WrittenStep(parent: Slots, child: Slots, done: set<Outpoint>, o: Outpoint)
    requires o in child && o !in done
    ensures Find(WrittenFor(parent, child, done), o) == Find(parent, o)
    ensures WrittenFor(parent, child, done + {o}) == Put(WrittenFor(parent, child, done), o, Written(parent, child, o))
  {
  }

  lemma WrittenAll(parent: Slots, child: Slots, done: set<Outpoint>)
    requires forall o | o in child && child[o].isDirty :: o in done
    ensures WrittenFor(parent, child, done) == BatchWritten(parent, child)
  {
  }

  function SyncedFor(slots: Slots, done: set<Outpoint>): Slots {
    map o | o in slots && !(o in done && slots[o].coin.Spent())
      :: if o in done then Slot(slots[o].coin, false, false) else slots[o]
  }

  /** What the cursor leaves of an entry it has passed without wiping the cache. */
  function Passed(slot: Slot): Option<Slot> {
    if slot.coin.Spent() then None else Some(Slot(slot.coin, false, false))
  }

  lemma SyncedStep(slots: Slots, done: set<Outpoint>, o: Outpoint)
    requires o in slots && o !in done
    ensures Find(SyncedFor(slots, done), o) == Some(slots[o])
    ensures SyncedFor(slots, done + {o}) == Put(SyncedFor(slots, done), o, Passed(slots[o]))
  {
  }

  lemma SyncedAll(slots: Slots, done: set<Outpoint>)
    requires forall o | o in slots :: o in done <==> slots[o].Flagged()
    ensures SyncedFor(slots, done) == Synced(slots)
  {
  }

  function DbWrittenFor(db: Coins, child: Slots, done: set<Outpoint>): Coins {
    DbWritten(db, map o | o in child && o in done :: child[o])
  }

  lemma DbWrittenStep(db: Coins, child: Slots, done: set<Outpoint>, o: Outpoint)
    requires o in child && o !in done
    ensures DbWrittenFor(db, child, done + {o}) ==
            (if !child[o].isDirty then DbWrittenFor(db, child, done)
             else if child[o].coin.Spent() then DbWrittenFor(db, child, done) - {o}
             else DbWrittenFor(db, child, done)[o := child[o].coin])
  {
  }

  lemma DbWrittenAll(db: Coins, child: Slots, done: set<Outpoint>)
    requires forall o | o in child && child[o].isDirty :: o in done
    ensures DbWrittenFor(db, child, {}) == db && DbWrittenFor(db, child, done) == DbWritten(db, child)
  {
  }

  function Firsts(order: seq<Outpoint>, k: nat): set<Outpoint>
    requires k <= |order|
  {
    set i | 0 <= i < k :: order[i]
  }

  lemma FirstsStep(order: seq<Outpoint>, k: nat)
    requires NoDuplicates(order) && k < |order|
    ensures Firsts(order, k + 1) == Firsts(order, k) + {order[k]} && order[k] !in Firsts(order, k)
  {
  }

  /** A cursor over a cache that held `above`, listed as `order0`, has passed `k` entries. */
  ghost predicate Cursor(contents: Slots, order: seq<Outpoint>, above: Slots, order0: seq<Outpoint>, k: nat, willErase: bool) {
    && k <= |order0| && NoDuplicates(order0)
    && (forall o | o in above :: above[o].Flagged() <==> o in order0)
    && (forall i | 0 <= i < |order0| :: order0[i] in above)
    && order == (if willErase then order0 else order0[k..])
    && contents == (if willErase then above else SyncedFor(above, Firsts(order0, k)))
  }

  lemma CursorStart(entries: Entries, first: Ptr, last: Ptr, order: seq<Outpoint>, willErase: bool, parent: Slots)
    requires Linked(entries, first, last, order)
    ensures Cursor(SlotsOf(entries), order, SlotsOf(entries), order, 0, willErase) && first == PtrAt(order, 0)
    ensures WrittenFor(parent, SlotsOf(entries), Firsts(order, 0)) == parent
  {
    assert forall o | o in entries :: FlagsMatch(entries[o], order, o);
    forall i | 0 <= i < |order|
      ensures order[i] in entries
    {
      assert ListedAt(entries, order, i);
    }
    assert SyncedFor(SlotsOf(entries), Firsts(order, 0)) == SlotsOf(entries);
  }

  /** The entry the cursor is at, and what follows it. */
  lemma CursorEntry(entries: Entries, first: Ptr, last: Ptr, order: seq<Outpoint>,
                    above: Slots, order0: seq<Outpoint>, k: nat, willErase: bool)
    requires Linked(entries, first, last, order) && k < |order0|
    requires Cursor(SlotsOf(entries), order, above, order0, k, willErase)
    ensures var o := order0[k];
            && o in entries && o in above && entries[o].slot == above[o] && above[o].Flagged()
            && entries[o].next == PtrAt(order0, k + 1)
            && o !in Firsts(order0, k) && Firsts(order0, k + 1) == Firsts(order0, k) + {o}
  {
    var o := order0[k];
    FirstsStep(order0, k);
    SyncedStep(above, Firsts(order0, k), o);
    assert SlotsOf(entries)[o] == entries[o].slot;
    var j := if willErase then k else 0;
    assert order[j] == o;
    assert ListedAt(entries, order, j);
  }

  lemma CursorStep(contents: Slots, order: seq<Outpoint>, above: Slots, order0: seq<Outpoint>, k: nat, willErase: bool)
    requires Cursor(contents, order, above, order0, k, willErase) && k < |order0|
    ensures var o := order0[k];
            && (willErase ==> Cursor(contents, order, above, order0, k + 1, true))
            && (!willErase ==> Cursor(Put(contents, o, Passed(above[o])), Without(order, o), above, order0, k + 1, false))
  {
    FirstsStep(order0, k);
    SyncedStep(above, Firsts(order0, k), order0[k]);
    if !willErase {
      assert order[0] == order0[k] && order[1..] == order0[k + 1..];
    }
    hide SyncedFor, Firsts;
  }

  lemma CursorEnd(contents: Slots, order: seq<Outpoint>, above: Slots, order0: seq<Outpoint>, willErase: bool, parent: Slots)
    requires Cursor(contents, order, above, order0, |order0|, willErase)
    requires forall i | 0 <= i < |order0| :: !WriteThrowsAt(parent, above, order0[i])
    ensures !WriteThrows(parent, above)
    ensures WrittenFor(parent, above, Firsts(order0, |order0|)) == BatchWritten(parent, above)
    ensures !willErase ==> order == [] && contents == Synced(above)
  {
    var done := Firsts(order0, |order0|);
    assert forall o | o in above :: o in done <==> above[o].Flagged();
    WrittenAll(parent, above, done);
    SyncedAll(above, done);
  }

  lemma FirstsSize(order: seq<Outpoint>, k: nat)
    requires NoDuplicates(order) && k <= |order|
    ensures |Firsts(order, k)| == k
  {
    if k > 0 {
      FirstsSize(order, k - 1);
      FirstsStep(order, k - 1);
    }
  }

  /** The flagged entries are as many as the list is long. */
  lemma FlaggedSize(entries: Entries, first: Ptr, last: Ptr, order: seq<Outpoint>)
    requires Linked(entries, first, last, order)
    ensures |set o | o in entries && entries[o].slot.Flagged()| == |order|
  {
    var s := set o | o in entries && entries[o].slot.Flagged();
    forall o: Outpoint
      ensures o in s <==> o in Firsts(order, |order|)
    {
      assert o in entries ==> FlagsMatch(entries[o], order, o);
      if o in order {
        var i :| 0 <= i < |order| && order[i] == o;
        assert ListedAt(entries, order, i);
      }
    }
    assert s == Firsts(order, |order|);
    FirstsSize(order, |order|);
  }

  /** Walking the list: each entry points back at its neighbours, and they at it. */
  lemma Neighbours(entries: Entries, first: Ptr, last: Ptr, order: seq<Outpoint>, i: nat)
    requires Linked(entries, first, last, order) && i < |order|
    ensures var o := order[i];
            && o in entries && entries[o].slot.Flagged()
            && entries[o].next == PtrAt(order, i + 1)
            && (if entries[o].next.At? then entries[o].next.key in entries && entries[entries[o].next.key].prev == At(o)
                else last == At(o))
            && (if entries[o].prev.At? then entries[o].prev.key in entries && entries[entries[o].prev.key].next == At(o)
                else first == At(o))
  {
    assert ListedAt(entries, order, i) && FlagsMatch(entries[order[i]], order, order[i]);
    assert i > 0 ==> ListedAt(entries, order, i - 1);
    assert i + 1 < |order| ==> ListedAt(entries, order, i + 1);
  }

  class CoinsCache {
    var entries: Entries
    /** The sentinel's two links. */
    var first: Ptr
    var last: Ptr
    var hashBlock: nat
    var usage: int
    ghost var order: seq<Outpoint>

    ghost predicate ListOk()
      reads this
    {
      Linked(entries, first, last, order)
    }

    ghost predicate Valid()
      reads this
    {
      && ListOk() && usage == Total(SlotsOf(entries))
      && forall o | o in Contents() :: Contents()[o].coin.WellFormed()
    }

    function Contents(): Slots
      reads this
    {
      SlotsOf(entries)
    }

    constructor ()
      ensures Valid() && Contents() == map[] && hashBlock == NULL_HASH
    {
      entries, first, last, order := map[], Sentinel, Sentinel, [];
      hashBlock, usage := NULL_HASH, 0;
    }

    // The list

    method SetNext(p: Ptr, to: Ptr)
      requires p.At? ==> p.key in entries
      modifies this`entries, this`first
      ensures entries == NextSet(old(entries), p, to)
      ensures first == if p.Sentinel? then to else old(first)
    {
      match p {
        case Null =>
        case Sentinel => first := to;
        case At(k) => entries := entries[k := entries[k].(next := to)];
      }
    }

    method SetPrev(p: Ptr, to: Ptr)
      requires p.At? ==> p.key in entries
      modifies this`entries, this`last
      ensures entries == PrevSet(old(entries), p, to)
      ensures last == if p.Sentinel? then to else old(last)
    {
      match p {
        case Null =>
        case Sentinel => last := to;
        case At(k) => entries := entries[k := entries[k].(prev := to)];
      }
    }

    /** Set flags on an entry, linking it at the end of the list if it had none. */
    method AddFlags(o: Outpoint, isDirty: bool, isFresh: bool)
      requires ListOk() && o in entries && (isDirty || isFresh)
      modifies this`entries, this`first, this`last, this`order
      ensures ListOk()
      ensures Contents() == old(Contents())[o := Flags(old(Contents())[o], isDirty, isFresh)]
    {
      hide Linked;
      ghost var was := entries;
      ghost var slot := Flags(entries[o].slot, isDirty, isFresh);
      if !entries[o].slot.Flagged() {
        AppendLinked(entries, first, last, order, o, slot);
        var before := last;
        entries := entries[o := Entry(entries[o].slot, before, Sentinel)];
        last := At(o);
        SetNext(before, At(o));
        order := order + [o];
        entries := entries[o := entries[o].(slot := Flags(entries[o].slot, isDirty, isFresh))];
        assert entries == NextSet(was, before, At(o))[o := Entry(slot, before, Sentinel)];
      } else {
        FlagLinked(was, first, last, order, o, slot);
        entries := entries[o := entries[o].(slot := Flags(entries[o].slot, isDirty, isFresh))];
      }
    }

    /** Take an entry off the list and drop its flags. */
    method SetClean(o: Outpoint)
      requires ListOk() && o in entries
      modifies this`entries, this`first, this`last, this`order
      ensures ListOk() && order == Without(old(order), o)
      ensures Contents() == old(Contents())[o := Slot(old(Contents())[o].coin, false, false)]
    {
      hide Linked;
      if entries[o].slot.Flagged() {
        ghost var was := entries;
        var prev, next := entries[o].prev, entries[o].next;
        ghost var k := LinkedAt(entries, first, last, order, o);
        CutLinked(entries, first, last, order, o, Slot(entries[o].slot.coin, false, false));
        SetPrev(next, prev);
        SetNext(prev, next);
        order := Without(order, o);
        entries := entries[o := Entry(Slot(entries[o].slot.coin, false, false), Null, Null)];
      } else {
        NotListed(entries, first, last, order, o);
      }
    }

    /** Remove an entry from the map; its destructor unlinks it. */
    method Erase(o: Outpoint)
      requires ListOk() && o in entries
      modifies this`entries, this`first, this`last, this`order
      ensures ListOk() && order == Without(old(order), o)
      ensures Contents() == old(Contents()) - {o}
    {
      hide Linked;
      SetClean(o);
      assert Contents()[o] == entries[o].slot;
      DropLinked(entries, first, last, order, o);
      ghost var cleaned := Contents();
      entries := entries - {o};
      assert Contents() == cleaned - {o} == old(Contents()) - {o};
    }

    // The entries, with the memory count

    /** A new entry for a coin from the view below; a spent one is marked FRESH. */
    method Fill(o: Outpoint, c: Coin)
      requires Valid() && o !in entries && c.WellFormed()
      modifies this`entries, this`first, this`last, this`order, this`usage
      ensures Valid() && Contents() == old(Contents())[o := Slot(c, false, c.Spent())]
    {
      Emplace(o);
      SetCoin(o, c);
      if c.Spent() {
        Mark(o, false, true);
      }
    }

    method Emplace(o: Outpoint)
      requires Valid()
      modifies this`entries
      ensures Valid() && o in entries
      ensures Contents() == if o in old(Contents()) then old(Contents()) else old(Contents())[o := Slot(Cleared(), false, false)]
    {
      hide Linked, Total;
      if o !in entries {
        InsertLinked(entries, first, last, order, o, Slot(Cleared(), false, false));
        TotalWith(Contents(), o, Slot(Cleared(), false, false));
        entries := entries[o := Entry(Slot(Cleared(), false, false), Null, Null)];
        assert Contents() == old(Contents())[o := Slot(Cleared(), false, false)];
      }
    }

    method SetCoin(o: Outpoint, c: Coin)
      requires Valid() && o in entries && c.WellFormed()
      modifies this`entries, this`usage
      ensures Valid() && o in entries && Contents() == old(Contents())[o := old(Contents())[o].(coin := c)]
    {
      hide Linked, Total;
      var slot := entries[o].slot.(coin := c);
      FlagLinked(entries, first, last, order, o, slot);
      TotalWithout(Contents(), o);
      TotalWith(Contents(), o, slot);
      usage := usage - entries[o].slot.coin.Usage() + c.Usage();
      entries := entries[o := entries[o].(slot := slot)];
      assert Contents() == old(Contents())[o := slot];
    }

    method Mark(o: Outpoint, isDirty: bool, isFresh: bool)
      requires Valid() && o in entries && (isDirty || isFresh)
      modifies this`entries, this`first, this`last, this`order
      ensures Valid() && o in entries && Contents() == old(Contents())[o := Flags(old(Contents())[o], isDirty, isFresh)]
    {
      hide Linked, Total;
      ghost var was := Contents();
      AddFlags(o, isDirty, isFresh);
      TotalWithout(was, o);
      TotalWith(was, o, Flags(was[o], isDirty, isFresh));
      assert o in Contents();
    }

    method Remove(o: Outpoint)
      requires Valid() && o in entries
      modifies this`entries, this`first, this`last, this`order, this`usage
      ensures Valid() && Contents() == old(Contents()) - {o}
      ensures order == Without(old(order), o)
    {
      hide Linked, Total;
      ghost var was := Contents();
      TotalWithout(was, o);
      usage := usage - entries[o].slot.coin.Usage();
      Erase(o);
    }

    /** Take the flags off an entry that keeps its coin. */
    method Clean(o: Outpoint)
      requires Valid() && o in entries
      modifies this`entries, this`first, this`last, this`order
      ensures Valid() && Contents() == old(Contents())[o := Slot(old(Contents())[o].coin, false, false)]
      ensures order == Without(old(order), o)
    {
      hide Linked, Total;
      ghost var was := Contents();
      SetClean(o);
      TotalWithout(was, o);
      TotalWith(was, o, Slot(was[o].coin, false, false));
    }

    // The operations on one cache

    /** Add an unspent coin; the exception leaves the cache as it was. */
    method AddCoin(o: Outpoint, c: Coin, overwrite: bool) returns (threw: bool)
      requires Valid() && !c.Spent()
      modifies this`entries, this`first, this`last, this`order, this`usage
      ensures Valid() && Contents() == Added(old(Contents()), o, c, overwrite)
      ensures threw <==> AddThrows(old(Contents()), o, c, overwrite)
    {
      hide Linked, Total;
      if c.Unspendable() {
        return false;
      }
      ghost var was := Contents();
      ghost var slot := SlotOf(was, o);
      Emplace(o);
      assert Contents()[o] == slot;
      var isFresh := false;
      if !overwrite {
        if !entries[o].slot.coin.Spent() {
          return true;
        }
        isFresh := !entries[o].slot.isDirty;
      }
      SetCoin(o, c);
      Mark(o, true, false);
      if isFresh {
        Mark(o, false, true);
      }
      assert Contents() == was[o := Slot(c, true, slot.isFresh || isFresh)];
      threw := false;
    }

    /** Spend a coin that has been fetched if there is one. */
    method SpendFetched(o: Outpoint) returns (found: bool, moveout: Coin)
      requires Valid()
      modifies this`entries, this`first, this`last, this`order, this`usage
      ensures Valid() && Contents() == Spent(old(Contents()), o)
      ensures found <==> o in old(Contents())
      ensures found ==> moveout == old(Contents())[o].coin
    {
      hide Linked, Total;
      if o !in entries {
        return false, Cleared();
      }
      assert Contents()[o] == entries[o].slot;
      found, moveout := true, entries[o].slot.coin;
      if entries[o].slot.isFresh {
        Remove(o);
      } else {
        Mark(o, true, false);
        SetCoin(o, Cleared());
      }
    }

    method Uncache(o: Outpoint)
      requires Valid()
      modifies this`entries, this`first, this`last, this`order, this`usage
      ensures Valid() && Contents() == Uncached(old(Contents()), o)
    {
      hide Linked, Total;
      if o in entries && !entries[o].slot.Flagged() {
        Remove(o);
      }
    }

    // Writing the cache above into this one

    /** Move a cursor past a listed entry. */
    method NextAndMaybeErase(o: Outpoint, willErase: bool) returns (next: Ptr)
      requires Valid() && o in entries && entries[o].slot.Flagged()
      modifies this`entries, this`first, this`last, this`order, this`usage
      ensures Valid() && next == old(entries)[o].next
      ensures willErase ==> entries == old(entries) && order == old(order)
      ensures !willErase ==> order == Without(old(order), o)
      ensures !willErase ==> Contents() == Put(old(Contents()), o, Passed(old(Contents())[o]))
    {
      hide Linked, Total;
      assert Contents()[o] == entries[o].slot;
      next := entries[o].next;
      if !willErase {
        if entries[o].slot.coin.Spent() {
          assert entries[o].slot.coin.Usage() == 0;
          Remove(o);
        } else {
          Clean(o);
        }
      }
    }

    /** Take over one modified coin of the cache above; false stands for the exception. */
    method WriteEntry(o: Outpoint, slot: Slot) returns (ok: bool)
      requires Valid() && slot.isDirty && slot.coin.WellFormed()
      modifies this`entries, this`first, this`last, this`order, this`usage
      ensures Valid()
      ensures ok <==> !(slot.isFresh && o in old(Contents()) && !old(Contents())[o].coin.Spent())
      ensures ok ==> Contents() == Put(old(Contents()), o, WrittenOver(Find(old(Contents()), o), slot))
      ensures !ok ==> Contents() == old(Contents())
    {
      hide Linked, Total;
      ok := true;
      if o !in entries {
        if slot.isFresh && slot.coin.Spent() {
          assert Contents() == Contents() - {o};
        } else {
          Emplace(o);
          SetCoin(o, slot.coin);
          Mark(o, true, false);
          if slot.isFresh {
            Mark(o, false, true);
          }
        }
      } else {
        assert Contents()[o] == entries[o].slot;
        if slot.isFresh && !entries[o].slot.coin.Spent() {
          return false;
        }
        if entries[o].slot.isFresh && slot.coin.Spent() {
          Remove(o);
        } else {
          SetCoin(o, slot.coin);
          Mark(o, true, false);
        }
      }
    }

    /** Write the flagged coins of the cache above into this one, following its list.  The cursor
        cleans the list as it goes unless the cache above is to be wiped anyway. */
    method BatchWrite(child: CoinsCache, willErase: bool, hash: nat) returns (ok: bool)
      requires this != child && Valid() && child.Valid()
      modifies this, child`entries, child`first, child`last, child`order, child`usage
      ensures Valid() && child.Valid()
      ensures ok <==> !WriteThrows(old(Contents()), old(child.Contents()))
      ensures ok ==> Contents() == BatchWritten(old(Contents()), old(child.Contents())) && hashBlock == hash
      ensures ok && !willErase ==> child.Contents() == Synced(old(child.Contents())) && child.first == Sentinel
    {
      hide Linked, Total, Cursor, Put, WrittenFor, WrittenOver, Firsts, BatchWritten, Synced;
      ghost var parent, above, order0, k := Contents(), child.Contents(), child.order, 0;
      CursorStart(child.entries, child.first, child.last, child.order, willErase, parent);
      var it := child.first;
      while it.At?
        invariant Valid() && child.Valid() && k <= |order0| && it == PtrAt(order0, k)
        invariant Cursor(child.Contents(), child.order, above, order0, k, willErase)
        invariant Contents() == WrittenFor(parent, above, Firsts(order0, k))
        invariant forall i | 0 <= i < k :: !WriteThrowsAt(parent, above, order0[i])
        decreases |order0| - k
      {
        var o := it.key;
        CursorEntry(child.entries, child.first, child.last, child.order, above, order0, k, willErase);
        CursorStep(child.Contents(), child.order, above, order0, k, willErase);
        WrittenStep(parent, above, Firsts(order0, k), o);
        var slot := child.entries[o].slot;
        if slot.isDirty {
          var written := WriteEntry(o, slot);
          if !written {
            assert WriteThrowsAt(parent, above, o);
            return false;
          }
        } else {
          PutSame(Contents(), o);
        }
        it := child.NextAndMaybeErase(o, willErase);
        k := k + 1;
      }
      CursorEnd(child.Contents(), child.order, above, order0, willErase, parent);
      ListStart(child.entries, child.first, child.last, child.order);
      hashBlock := hash;
      ok := true;
    }

    /** Write this cache into a database. */
    method WriteTo(db: Coins, willErase: bool) returns (r: Coins)
      requires Valid()
      modifies this`entries, this`first, this`last, this`order, this`usage
      ensures Valid() && r == DbWritten(db, old(Contents()))
      ensures !willErase ==> Contents() == Synced(old(Contents())) && first == Sentinel
    {
      hide Linked, Total, Cursor, Put, WrittenFor, DbWrittenFor, DbWritten, Firsts, BatchWritten, Synced;
      ghost var above, order0, k := Contents(), order, 0;
      CursorStart(entries, first, last, order, willErase, map[]);
      DbCursorStart(db, above, order0);
      r := db;
      var it := first;
      while it.At?
        invariant Valid() && k <= |order0| && it == PtrAt(order0, k)
        invariant Cursor(Contents(), order, above, order0, k, willErase)
        invariant r == DbWrittenFor(db, above, Firsts(order0, k))
        decreases |order0| - k
      {
        var o := it.key;
        CursorEntry(entries, first, last, order, above, order0, k, willErase);
        CursorStep(Contents(), order, above, order0, k, willErase);
        DbWrittenStep(db, above, Firsts(order0, k), o);
        var slot := entries[o].slot;
        if slot.isDirty {
          if slot.coin.Spent() {
            r := r - {o};
          } else {
            r := r[o := slot.coin];
          }
        }
        it := NextAndMaybeErase(o, willErase);
        k := k + 1;
      }
      DbCursorEnd(Contents(), order, db, above, order0, willErase);
      ListStart(entries, first, last, order);
    }

    /** Drop every entry; the destructors empty the list. */
    method Clear()
      modifies this`entries, this`first, this`last, this`order, this`usage
      ensures Valid() && Contents() == map[]
    {
      entries, first, last, order, usage := map[], Sentinel, Sentinel, [], 0;
    }

    /** The check the cache makes of itself: on a valid cache whose flags are possible it passes, the
        linked entries are as many as the flagged ones, and the memory count is exact. */
    method SanityCheck() returns (flagged: nat, linked: nat, recomputed: nat)
      requires Valid() && forall o | o in Contents() :: Contents()[o].Possible()
      ensures linked == flagged == |set o | o in Contents() && Contents()[o].Flagged()|
      ensures recomputed == usage == Total(Contents())
    {
      hide Linked, Total;
      flagged, recomputed := 0, 0;
      var rest := entries.Keys;
      RestTotal(Contents(), rest);
      while rest != {}
        invariant rest <= entries.Keys
        invariant recomputed + Total(Kept(Contents(), rest)) == usage
        invariant flagged + |FlaggedIn(Contents(), rest)| == |FlaggedIn(Contents(), entries.Keys)|
        decreases |rest|
      {
        var o :| o in rest;
        var slot := entries[o].slot;
        assert slot == Contents()[o] && slot.Possible();
        RestStep(Contents(), rest, o);
        recomputed := recomputed + slot.coin.Usage();
        if slot.Flagged() {
          flagged := flagged + 1;
        }
        rest := rest - {o};
      }
      FlaggedSize(entries, first, last, order);
      SameFlagged(entries);
      linked := 0;
      var it := first;
      ListStart(entries, first, last, order);
      while it.At?
        invariant linked <= |order| && it == PtrAt(order, linked)
        decreases |order| - linked
      {
        Neighbours(entries, first, last, order, linked);
        var next, prev := entries[it.key].next, entries[it.key].prev;
        assert (if next.At? then entries[next.key].prev else last) == it;
        assert (if prev.At? then entries[prev.key].next else first) == it;
        assert entries[it.key].slot.Flagged();
        linked := linked + 1;
        it := next;
      }
    }
  }

  lemma DbCursorStart(db: Coins, above: Slots, order0: seq<Outpoint>)
    ensures db == DbWrittenFor(db, above, Firsts(order0, 0))
  {
    assert Firsts(order0, 0) == {};
  }

  lemma DbCursorEnd(contents: Slots, order: seq<Outpoint>, db: Coins, above: Slots, order0: seq<Outpoint>, willErase: bool)
    requires Cursor(contents, order, above, order0, |order0|, willErase)
    ensures DbWrittenFor(db, above, Firsts(order0, |order0|)) == DbWritten(db, above)
    ensures !willErase ==> order == [] && contents == Synced(above)
  {
    var done := Firsts(order0, |order0|);
    assert forall o | o in above :: o in done <==> above[o].Flagged();
    DbWrittenAll(db, above, done);
    SyncedAll(above, done);
  }

  function Kept(slots: Slots, rest: set<Outpoint>): Slots {
    map o | o in slots && o in rest :: slots[o]
  }

  function FlaggedIn(slots: Slots, rest: set<Outpoint>): set<Outpoint> {
    set o | o in slots && o in rest && slots[o].Flagged()
  }

  lemma RestTotal(slots: Slots, rest: set<Outpoint>)
    requires rest == slots.Keys
    ensures Kept(slots, rest) == slots && Kept(slots, {}) == map[] && FlaggedIn(slots, {}) == {}
    ensures Total(map[]) == 0
  {
  }

  lemma RestStep(slots: Slots, rest: set<Outpoint>, o: Outpoint)
    requires o in rest && rest <= slots.Keys
    ensures Total(Kept(slots, rest)) == slots[o].coin.Usage() + Total(Kept(slots, rest - {o}))
    ensures |FlaggedIn(slots, rest)| == (if slots[o].Flagged() then 1 else 0) + |FlaggedIn(slots, rest - {o})|
  {
    TotalWithout(Kept(slots, rest), o);
    assert Kept(slots, rest) - {o} == Kept(slots, rest - {o});
    if slots[o].Flagged() {
      assert FlaggedIn(slots, rest) == FlaggedIn(slots, rest - {o}) + {o};
    } else {
      assert FlaggedIn(slots, rest) == FlaggedIn(slots, rest - {o});
    }
  }

  lemma SameFlagged(entries: Entries)
    ensures (set o | o in entries && entries[o].slot.Flagged()) == FlaggedIn(SlotsOf(entries), entries.Keys)
    ensures (set o | o in SlotsOf(entries) && SlotsOf(entries)[o].Flagged()) == FlaggedIn(SlotsOf(entries), entries.Keys)
  {
  }

  lemma ListStart(entries: Entries, first: Ptr, last: Ptr, order: seq<Outpoint>)
    requires Linked(entries, first, last, order)
    ensures first == PtrAt(order, 0)
  {
  }
}
