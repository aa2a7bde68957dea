/**
 * The layered set of unspent outputs: a database of coins under a stack of write-back caches.
 *
 * Each cache holds some coins with a DIRTY flag (may differ from the view below) and a FRESH flag
 * (the view below has no such coin).  This module gives the meaning of a stack, one flat map of
 * coins per height, and proves that every run of operations on the stack is the corresponding run
 * on flat maps.  Module `CoinsCaches` has the caches themselves, updated in place.
 */
module Coins {
  import opened Wrappers

  datatype Outpoint = Outpoint(txid: nat, n: nat)

  /** The null block hash. */
  const NULL_HASH: nat := 0

  const OP_RETURN: bv8 := 0x6a
  const MAX_SCRIPT_SIZE := 10000
  const NULL_VALUE := -1

  datatype Coin = Coin(value: int, script: seq<bv8>, height: nat, coinBase: bool) {
    predicate Spent() {
      value == NULL_VALUE
    }

    predicate Unspendable() {
      (|script| > 0 && script[0] == OP_RETURN) || |script| > MAX_SCRIPT_SIZE
    }

    /** Bytes held outside the coin object: short scripts are stored inside it. */
    function Usage(): nat {
      if |script| <= 28 then 0 else |script|
    }

    /** Spent coins are nulled out. */
    predicate WellFormed() {
      Spent() ==> script == []
    }
  }

  function Cleared(): Coin {
    Coin(NULL_VALUE, [], 0, false)
  }

  /** A cached coin and its flags. */
  datatype Slot = Slot(coin: Coin, isDirty: bool, isFresh: bool) {
    predicate Flagged() {
      isDirty || isFresh
    }

    /** The five combinations of flags and spentness that may occur. */
    predicate Possible() {
      && !(isFresh && !isDirty && !coin.Spent())
      && !(!isFresh && !isDirty && coin.Spent())
      && !(isFresh && isDirty && coin.Spent())
    }
  }

  type Coins = map<Outpoint, Coin>
  type Slots = map<Outpoint, Slot>

  datatype Level = Level(slots: Slots, hashBlock: nat)

  /** A database and the caches on it, lowest first. */
  datatype Stack = Stack(db: Coins, dbBlock: nat, levels: seq<Level>)

  // ---------------------------------------------------------------------------------------------
  // What a stack means

  /** The unspent coins of a database. */
  function Unspent(db: Coins): Coins {
    map o | o in db && !db[o].Spent() :: db[o]
  }

  /** The unspent coins seen through a cache over a view. */
  function Seen(below: Coins, slots: Slots): Coins {
    map o | o in below.Keys + slots.Keys && (o in slots ==> !slots[o].coin.Spent())
      :: if o in slots then slots[o].coin else below[o]
  }

  /** The view from above the lowest `n` caches. */
  function View(s: Stack, n: nat): Coins
    requires n <= |s.levels|
  {
    if n == 0 then Unspent(s.db) else Seen(View(s, n - 1), s.levels[n - 1].slots)
  }

  /** The best block seen from there: the highest one that is set. */
  function Best(s: Stack, n: nat): nat
    requires n <= |s.levels|
  {
    if n == 0 then s.dbBlock
    else if s.levels[n - 1].hashBlock != NULL_HASH then s.levels[n - 1].hashBlock
    else Best(s, n - 1)
  }

  /** One view per height, the database's first. */
  function Views(s: Stack): (r: seq<Coins>)
    ensures |r| == |s.levels| + 1
  {
    seq(|s.levels| + 1, n requires 0 <= n <= |s.levels| => View(s, n))
  }

  /** What holds of a cached coin over the view below: the flags never claim too much. */
  predicate SlotOk(below: Coins, o: Outpoint, slot: Slot) {
    && slot.Possible() && slot.coin.WellFormed()
    && (slot.isFresh ==> o !in below)
    && (!slot.isDirty && slot.coin.Spent() ==> o !in below)
    && (!slot.isDirty && !slot.coin.Spent() ==> o in below && below[o] == slot.coin)
  }

  predicate LevelOk(below: Coins, slots: Slots) {
    forall o | o in slots :: SlotOk(below, o, slots[o])
  }

  predicate DbOk(db: Coins) {
    forall o | o in db :: db[o].WellFormed()
  }

  predicate StackOk(s: Stack) {
    && DbOk(s.db)
    && forall n | 0 <= n < |s.levels| :: LevelOk(View(s, n), s.levels[n].slots)
  }

  // ---------------------------------------------------------------------------------------------
  // The operations

  /** What the view below cache `n` answers for `o`: only the database can answer with a spent coin. */
  function FromBelow(s: Stack, n: nat, o: Outpoint): Option<Coin>
    requires n <= |s.levels|
  {
    if n == 0 then (if o in s.db then Some(s.db[o]) else None)
    else if o in View(s, n) then Some(View(s, n)[o]) else None
  }

  /** Look `o` up in the top of the lowest `n` caches, filling every cache passed on the way. */
  function Fetched(s: Stack, n: nat, o: Outpoint): (r: Stack)
    requires n <= |s.levels|
    ensures |r.levels| == |s.levels| && r.db == s.db && r.dbBlock == s.dbBlock
    ensures forall i | 0 <= i < |s.levels| :: r.levels[i].hashBlock == s.levels[i].hashBlock
    ensures forall i | n <= i < |s.levels| :: r.levels[i] == s.levels[i]
  {
    if n == 0 || o in s.levels[n - 1].slots then s
    else
      var below := Fetched(s, n - 1, o);
      match FromBelow(s, n - 1, o)
      case None => below
      case Some(c) => WithSlots(below, n - 1, below.levels[n - 1].slots[o := Slot(c, false, c.Spent())])
  }

  function WithSlots(s: Stack, i: nat, slots: Slots): Stack
    requires i < |s.levels|
  {
    s.(levels := s.levels[i := s.levels[i].(slots := slots)])
  }

  predicate AddThrows(slots: Slots, o: Outpoint, c: Coin, overwrite: bool) {
    !c.Unspendable() && !overwrite && o in slots && !slots[o].coin.Spent()
  }

  function SlotOf(slots: Slots, o: Outpoint): Slot {
    if o in slots then slots[o] else Slot(Cleared(), false, false)
  }

  function Added(slots: Slots, o: Outpoint, c: Coin, overwrite: bool): Slots {
    if c.Unspendable() || AddThrows(slots, o, c, overwrite) then slots
    else
      var was := SlotOf(slots, o);
      slots[o := Slot(c, true, was.isFresh || (!overwrite && !was.isDirty))]
  }

  /** Spending a coin that was fetched; a fresh one is simply forgotten. */
  function Spent(slots: Slots, o: Outpoint): Slots {
    if o !in slots then slots
    else if slots[o].isFresh then slots - {o}
    else slots[o := Slot(Cleared(), true, false)]
  }

  function Uncached(slots: Slots, o: Outpoint): Slots {
    if o in slots && !slots[o].Flagged() then slots - {o} else slots
  }

  function Find(slots: Slots, o: Outpoint): Option<Slot> {
    if o in slots then Some(slots[o]) else None
  }

  /** Writing a modified coin over what the cache below has of it. */
  function WrittenOver(was: Option<Slot>, slot: Slot): Option<Slot> {
    match was
    case None => if slot.isFresh && slot.coin.Spent() then None else Some(Slot(slot.coin, true, slot.isFresh))
    case Some(p) => if p.isFresh && slot.coin.Spent() then None else Some(Slot(slot.coin, true, p.isFresh))
  }

  function Written(parent: Slots, child: Slots, o: Outpoint): Option<Slot> {
    if o in child && child[o].isDirty then WrittenOver(Find(parent, o), child[o]) else Find(parent, o)
  }

  predicate WriteThrowsAt(parent: Slots, child: Slots, o: Outpoint) {
    o in child && child[o].isDirty && child[o].isFresh && o in parent && !parent[o].coin.Spent()
  }

  predicate WriteThrows(parent: Slots, child: Slots) {
    exists o | o in child :: WriteThrowsAt(parent, child, o)
  }

  function BatchWritten(parent: Slots, child: Slots): Slots {
    map o | o in parent.Keys + child.Keys && Written(parent, child, o).Some? :: Written(parent, child, o).value
  }

  /** Writing a cache into the database. */
  function DbWritten(db: Coins, child: Slots): Coins {
    map o | o in db.Keys + child.Keys && (o in child && child[o].isDirty ==> !child[o].coin.Spent()) &&
            (!(o in child && child[o].isDirty) ==> o in db)
      :: if o in child && child[o].isDirty then child[o].coin else db[o]
  }

  /** What a cache keeps after Sync: spent coins go, the others lose their flags. */
  function Synced(slots: Slots): Slots {
    map o | o in slots && !(slots[o].Flagged() && slots[o].coin.Spent()) :: Slot(slots[o].coin, false, false)
  }

  /** The top cache is written down one level, keeping `kept`. */
  function PushedDown(s: Stack, kept: Slots): (r: Stack)
    requires |s.levels| > 0
    ensures |r.levels| == |s.levels|
  {
    var n := |s.levels| - 1;
    var top := s.levels[n];
    if n == 0 then Stack(DbWritten(s.db, top.slots), top.hashBlock, [Level(kept, top.hashBlock)])
    else s.(levels := s.levels[n - 1 := Level(BatchWritten(s.levels[n - 1].slots, top.slots), top.hashBlock)]
                              [n := Level(kept, top.hashBlock)])
  }

  // ---------------------------------------------------------------------------------------------
  // What each operation does to the views

  /** A view depends only on the coins at and below it. */
  lemma {:induction false} ViewBelow(s: Stack, t: Stack, n: nat)
    requires n <= |s.levels| && n <= |t.levels| && s.db == t.db
    requires forall i | 0 <= i < n :: s.levels[i].slots == t.levels[i].slots
    ensures View(s, n) == View(t, n)
  {
    if n > 0 {
      ViewBelow(s, t, n - 1);
    }
  }

  /** A change at height `i` that keeps the view from there is not seen from anywhere. */
  lemma {:induction false} ViewAbove(s: Stack, t: Stack, i: nat, n: nat)
    requires i <= n <= |s.levels| == |t.levels| && View(s, i) == View(t, i)
    requires forall k | i <= k < n :: s.levels[k].slots == t.levels[k].slots
    ensures View(s, n) == View(t, n)
  {
    if i < n {
      ViewAbove(s, t, i, n - 1);
    }
  }

  /** Other coins in one cache that mean the same. */
  lemma ReplaceKeeps(s: Stack, i: nat, slots: Slots)
    requires StackOk(s) && i < |s.levels|
    requires LevelOk(View(s, i), slots) && Seen(View(s, i), slots) == View(s, i + 1)
    ensures StackOk(WithSlots(s, i, slots))
    ensures forall n | 0 <= n <= |s.levels| :: View(WithSlots(s, i, slots), n) == View(s, n)
  {
    hide Seen, LevelOk, View;
    var t := WithSlots(s, i, slots);
    ViewBelow(s, t, i);
    ViewStep(t, i);
    forall n | 0 <= n <= |s.levels|
      ensures View(t, n) == View(s, n)
    {
      if n <= i {
        ViewBelow(s, t, n);
      } else {
        ViewAbove(s, t, i + 1, n);
      }
    }
  }

  /** Other coins in the top cache. */
  lemma TopKeeps(s: Stack, slots: Slots)
    requires StackOk(s) && |s.levels| > 0
    requires LevelOk(View(s, |s.levels| - 1), slots)
    ensures var t, n := WithSlots(s, |s.levels| - 1, slots), |s.levels|;
            && StackOk(t) && View(t, n) == Seen(View(s, n - 1), slots)
            && forall k | 0 <= k < n :: View(t, k) == View(s, k)
  {
    hide Seen, View, LevelOk;
    var t, n := WithSlots(s, |s.levels| - 1, slots), |s.levels|;
    forall k | 0 <= k < n
      ensures View(t, k) == View(s, k)
    {
      ViewBelow(s, t, k);
    }
    ViewStep(t, n - 1);
  }

  /** After a lookup the answer is in the cache itself. */
  lemma FetchFinds(s: Stack, n: nat, o: Outpoint)
    requires 0 < n <= |s.levels|
    ensures var slots := Fetched(s, n, o).levels[n - 1].slots;
            && (o in View(s, n) <==> o in slots && !slots[o].coin.Spent())
            && (o in View(s, n) ==> View(s, n)[o] == slots[o].coin)
  {
    hide View, Seen, FromBelow;
    ViewStep(s, n - 1);
    SeenAt(View(s, n - 1), s.levels[n - 1].slots, o);
    FetchedAnswer(s, n - 1, o);
  }

  /** A lookup changes no view, whatever it leaves in the caches. */
  lemma {:induction false} FetchKeeps(s: Stack, n: nat, o: Outpoint)
    requires StackOk(s) && n <= |s.levels|
    ensures StackOk(Fetched(s, n, o))
    ensures forall k | 0 <= k <= |s.levels| :: View(Fetched(s, n, o), k) == View(s, k)
  {
    hide Seen, View, LevelOk, StackOk, SlotOk, FromBelow;
    if n > 0 && o !in s.levels[n - 1].slots {
      FetchKeeps(s, n - 1, o);
      FetchStep(s, Fetched(s, n - 1, o), n - 1, o);
    }
  }

  /** One cache of a lookup: `t` is the stack once the lookup in the caches below is done. */
  lemma FetchStep(s: Stack, t: Stack, n: nat, o: Outpoint)
    requires StackOk(s) && StackOk(t) && |s.levels| == |t.levels| && n < |s.levels| && o !in t.levels[n].slots
    requires forall k | 0 <= k <= |s.levels| :: View(t, k) == View(s, k)
    ensures match FromBelow(s, n, o)
            case None => true
            case Some(c) =>
              var r := WithSlots(t, n, t.levels[n].slots[o := Slot(c, false, c.Spent())]);
              StackOk(r) && forall k | 0 <= k <= |s.levels| :: View(r, k) == View(s, k)
  {
    if FromBelow(s, n, o).Some? {
      var c := FromBelow(s, n, o).value;
      FetchedSlot(s, n, o);
      ViewStep(t, n);
      assert View(t, n) == View(s, n);
      hide View, FromBelow;
      assert LevelOk(View(t, n), t.levels[n].slots);
      SeenMore(View(t, n), t.levels[n].slots, o, Slot(c, false, c.Spent()));
      hide Seen, LevelOk;
      ReplaceKeeps(t, n, t.levels[n].slots[o := Slot(c, false, c.Spent())]);
    }
  }

  lemma FromBelowWellFormed(s: Stack, n: nat, o: Outpoint)
    requires n <= |s.levels| && DbOk(s.db)
    ensures FromBelow(s, n, o).Some? ==> FromBelow(s, n, o).value.WellFormed()
  {
    ViewIsUnspent(s, n);
  }

  lemma FetchedAnswer(s: Stack, n: nat, o: Outpoint)
    requires n <= |s.levels|
    ensures match FromBelow(s, n, o)
            case None => o !in View(s, n)
            case Some(c) => (o in View(s, n) <==> !c.Spent()) && (o in View(s, n) ==> View(s, n)[o] == c)
  {
    ViewIsUnspent(s, n);
  }

  lemma SeenAt(below: Coins, slots: Slots, o: Outpoint)
    ensures o in slots ==> (o in Seen(below, slots) <==> !slots[o].coin.Spent())
    ensures o in slots && !slots[o].coin.Spent() ==> Seen(below, slots)[o] == slots[o].coin
    ensures o !in slots ==> (o in Seen(below, slots) <==> o in below)
    ensures o !in slots && o in below ==> Seen(below, slots)[o] == below[o]
  {
  }

  /** An unmodified coin of the view below makes no difference. */
  lemma SeenMore(below: Coins, slots: Slots, o: Outpoint, slot: Slot)
    requires LevelOk(below, slots) && SlotOk(below, o, slot) && !slot.isDirty && o !in slots
    ensures LevelOk(below, slots[o := slot]) && Seen(below, slots[o := slot]) == Seen(below, slots)
  {
  }

  lemma ViewStep(s: Stack, n: nat)
    requires n < |s.levels|
    ensures View(s, n + 1) == Seen(View(s, n), s.levels[n].slots)
  {
  }

  /** A coin fetched from below is recorded with flags that fit it. */
  lemma FetchedSlot(s: Stack, n: nat, o: Outpoint)
    requires StackOk(s) && n < |s.levels| && FromBelow(s, n, o).Some?
    ensures var c := FromBelow(s, n, o).value; SlotOk(View(s, n), o, Slot(c, false, c.Spent()))
  {
    ViewIsUnspent(s, n);
  }

  lemma {:induction false} ViewIsUnspent(s: Stack, n: nat)
    requires n <= |s.levels|
    ensures forall o | o in View(s, n) :: !View(s, n)[o].Spent()
  {
    if n > 0 {
      ViewIsUnspent(s, n - 1);
    }
  }

  /** Adding a coin sets it in the view, unless it can never be spent or an unspent one is in the
      way.  The flags stay right exactly when the caller announces a possible overwrite, or the
      cache already knows the coin, or there is none below. */
  lemma AddKeeps(below: Coins, slots: Slots, o: Outpoint, c: Coin, overwrite: bool)
    requires LevelOk(below, slots) && !c.Spent()
    ensures LevelOk(below, Added(slots, o, c, overwrite)) <==>
            (c.Unspendable() || overwrite || o in slots || o !in below)
    ensures !c.Unspendable() && !AddThrows(slots, o, c, overwrite) ==>
              Seen(below, Added(slots, o, c, overwrite)) == Seen(below, slots)[o := c]
    ensures c.Unspendable() || AddThrows(slots, o, c, overwrite) ==> Added(slots, o, c, overwrite) == slots
    ensures AddThrows(slots, o, c, overwrite) ==> o in Seen(below, slots)
  {
    var r := Added(slots, o, c, overwrite);
    if r != slots {
      assert SlotOk(below, o, r[o]) <==> (overwrite || o in slots || o !in below);
      assert forall k | k in slots && k != o :: SlotOk(below, k, slots[k]);
    }
  }

  /** Where the caller got it wrong: over a database that has the coin, adding it as new and spending
      it again leaves it spendable. */
  lemma AddMisuse(o: Outpoint, c: Coin)
    requires !c.Spent() && !c.Unspendable()
    ensures var db: Coins := map[o := c];
            var slots: Slots := map[];
            && LevelOk(Unspent(db), slots) && !AddThrows(slots, o, c, false)
            && o in Seen(Unspent(db), Spent(Added(slots, o, c, false), o))
  {
  }

  /** Spending a coin, once it has been looked up, takes it out of the view. */
  lemma SpendKeeps(below: Coins, slots: Slots, o: Outpoint)
    requires LevelOk(below, slots) && (o in Seen(below, slots) ==> o in slots)
    ensures LevelOk(below, Spent(slots, o)) && Seen(below, Spent(slots, o)) == Seen(below, slots) - {o}
  {
    var r := Spent(slots, o);
    assert o in slots ==> SlotOk(below, o, slots[o]);
    forall k: Outpoint
      ensures k in r ==> SlotOk(below, k, r[k])
      ensures k in Seen(below, r) <==> k in Seen(below, slots) && k != o
      ensures k in Seen(below, r) ==> Seen(below, r)[k] == Seen(below, slots)[k]
    {
      SeenAt(below, slots, k);
      SeenAt(below, r, k);
      hide Seen;
    }
  }

  lemma UncacheKeeps(below: Coins, slots: Slots, o: Outpoint)
    requires LevelOk(below, slots)
    ensures LevelOk(below, Uncached(slots, o)) && Seen(below, Uncached(slots, o)) == Seen(below, slots)
  {
    if o in slots {
      assert SlotOk(below, o, slots[o]);
    }
  }

  /** Writing a cache into the cache below never meets a misapplied FRESH flag, leaves right flags
      towards the view further below, and makes the lower view the upper one. */
  lemma WriteKeeps(below: Coins, parent: Slots, child: Slots)
    requires LevelOk(below, parent) && LevelOk(Seen(below, parent), child)
    ensures !WriteThrows(parent, child)
    ensures LevelOk(below, BatchWritten(parent, child))
    ensures Seen(below, BatchWritten(parent, child)) == Seen(Seen(below, parent), child)
  {
    var view, r := Seen(below, parent), BatchWritten(parent, child);
    hide LevelOk, Seen, SlotOk, BatchWritten;
    forall o: Outpoint
      ensures o in child ==> !WriteThrowsAt(parent, child, o)
      ensures o in r ==> SlotOk(below, o, r[o])
      ensures o in Seen(below, r) <==> o in Seen(view, child)
      ensures o in Seen(below, r) ==> Seen(below, r)[o] == Seen(view, child)[o]
    {
      WriteKeepsAt(below, parent, child, o);
    }
    LevelOkIntro(below, r);
  }

  lemma LevelOkIntro(below: Coins, slots: Slots)
    requires forall o | o in slots :: SlotOk(below, o, slots[o])
    ensures LevelOk(below, slots)
  {
  }

  lemma WriteKeepsAt(below: Coins, parent: Slots, child: Slots, o: Outpoint)
    requires LevelOk(below, parent) && LevelOk(Seen(below, parent), child)
    ensures o in child ==> !WriteThrowsAt(parent, child, o)
    ensures var r := BatchWritten(parent, child);
            && (o in r ==> SlotOk(below, o, r[o]))
            && (o in Seen(below, r) <==> o in Seen(Seen(below, parent), child))
            && (o in Seen(below, r) ==> Seen(below, r)[o] == Seen(Seen(below, parent), child)[o])
  {
    var view, r := Seen(below, parent), BatchWritten(parent, child);
    assert o in parent ==> SlotOk(below, o, parent[o]);
    assert o in child ==> SlotOk(view, o, child[o]);
    SeenAt(below, parent, o);
    SeenAt(view, child, o);
    SeenAt(below, r, o);
    assert o in r <==> Written(parent, child, o).Some?;
    assert o in r ==> r[o] == Written(parent, child, o).value;
    hide LevelOk, Seen, BatchWritten;
  }

  /** The same for the database. */
  lemma DbWriteKeeps(db: Coins, child: Slots)
    requires DbOk(db) && LevelOk(Unspent(db), child)
    ensures DbOk(DbWritten(db, child)) && Unspent(DbWritten(db, child)) == Seen(Unspent(db), child)
  {
    var view, r := Unspent(db), DbWritten(db, child);
    forall o: Outpoint
      ensures o in r ==> r[o].WellFormed()
      ensures o in Unspent(r) <==> o in Seen(view, child)
      ensures o in Unspent(r) ==> Unspent(r)[o] == Seen(view, child)[o]
    {
      assert o in child ==> SlotOk(view, o, child[o]);
      SeenAt(view, child, o);
    }
  }

  /** What stays behind, all of it unspent or nothing at all, says the same as the view now below. */
  lemma KeptKeeps(view: Coins, slots: Slots)
    requires LevelOk(view, slots)
    ensures LevelOk(Seen(view, slots), Synced(slots))
    ensures Seen(Seen(view, slots), Synced(slots)) == Seen(view, slots)
    ensures LevelOk(Seen(view, slots), map[]) && Seen(Seen(view, slots), map[]) == Seen(view, slots)
  {
    assert forall o | o in slots :: SlotOk(view, o, slots[o]);
  }

  // ---------------------------------------------------------------------------------------------
  // Runs

  /** Operations on a stack: coins and the best block change at the top, lookups and Uncache work at
      any height, Sync and Flush write the top cache down, Push and Pop add and drop a cache. */
  datatype Op =
    | Add(o: Outpoint, c: Coin, overwrite: bool)
    | Spend(o: Outpoint)
    | Lookup(n: nat, o: Outpoint)
    | Uncache(n: nat, o: Outpoint)
    | SetBest(hash: nat)
    | AskBest(n: nat)
    | Sync
    | Flush
    | Push
    | Pop

  predicate Fits(height: nat, op: Op) {
    match op
    case Lookup(n, _) => n <= height
    case Uncache(n, _) => 0 < n <= height
    case AskBest(n) => n <= height
    case Push => true
    case _ => 0 < height
  }

  /** Asking for the best block remembers it in every cache that had to ask below. */
  function Asked(s: Stack, n: nat): (r: Stack)
    requires n <= |s.levels|
    ensures |r.levels| == |s.levels| && r.db == s.db && r.dbBlock == s.dbBlock
    ensures forall i | 0 <= i < |s.levels| :: r.levels[i].slots == s.levels[i].slots
    ensures forall i | n <= i < |s.levels| :: r.levels[i] == s.levels[i]
  {
    if n == 0 || s.levels[n - 1].hashBlock != NULL_HASH then s
    else
      var t := Asked(s, n - 1);
      t.(levels := t.levels[n - 1 := t.levels[n - 1].(hashBlock := Best(s, n - 1))])
  }

  function Apply(s: Stack, op: Op): Stack
    requires Fits(|s.levels|, op)
  {
    var n := |s.levels|;
    match op
    case Add(o, c, overwrite) => WithSlots(s, n - 1, Added(s.levels[n - 1].slots, o, c, overwrite))
    case Spend(o) => var t := Fetched(s, n, o); WithSlots(t, n - 1, Spent(t.levels[n - 1].slots, o))
    case Lookup(k, o) => Fetched(s, k, o)
    case Uncache(k, o) => WithSlots(s, k - 1, Uncached(s.levels[k - 1].slots, o))
    case SetBest(h) => s.(levels := s.levels[n - 1 := s.levels[n - 1].(hashBlock := h)])
    case AskBest(k) => Asked(s, k)
    case Sync => PushedDown(s, Synced(s.levels[n - 1].slots))
    case Flush => PushedDown(s, map[])
    case Push => s.(levels := s.levels + [Level(map[], NULL_HASH)])
    case Pop => s.(levels := s.levels[..n - 1])
  }

  /** A write of the top cache would reach the database without a block hash. */
  predicate NullReachesDb(s: Stack)
    requires |s.levels| > 0
  {
    |s.levels| == 1 && s.levels[0].hashBlock == NULL_HASH
  }

  /** The top cache cannot be written down: a FRESH flag is misapplied, or a database gets no block hash. */
  predicate PushThrows(s: Stack)
    requires |s.levels| > 0
  {
    var n := |s.levels|;
    NullReachesDb(s) || (n > 1 && WriteThrows(s.levels[n - 2].slots, s.levels[n - 1].slots))
  }

  /** The exceptions of the caches and the assertion of the database. */
  predicate Throws(s: Stack, op: Op)
    requires Fits(|s.levels|, op)
  {
    match op
    case Add(o, c, overwrite) => AddThrows(s.levels[|s.levels| - 1].slots, o, c, overwrite)
    case Sync => PushThrows(s)
    case Flush => PushThrows(s)
    case _ => false
  }

  /** One plain map of coins and one own block hash per height, the database's first. */
  datatype Flat = Flat(views: seq<Coins>, hashes: seq<nat>) {
    predicate Valid() {
      |views| == |hashes| > 0
    }

    function Top(): nat
      requires Valid()
    {
      |views| - 1
    }
  }

  /** The best block at a height: the hash of the highest one there or below that has any. */
  function FlatBest(hashes: seq<nat>, n: nat): nat
    requires n < |hashes|
  {
    if n == 0 || hashes[n] != NULL_HASH then hashes[n] else FlatBest(hashes, n - 1)
  }

  /** Nothing from height `i` up to `n` has a hash of its own. */
  predicate AllNull(hashes: seq<nat>, i: nat, n: nat)
    requires n < |hashes|
  {
    forall j | i <= j <= n :: hashes[j] == NULL_HASH
  }

  /** Asking at height `n` leaves the answer at every height that had to ask below. */
  function FlatAsked(hashes: seq<nat>, n: nat): (r: seq<nat>)
    requires n < |hashes|
    ensures |r| == |hashes|
  {
    seq(|hashes|, i requires 0 <= i < |hashes| => if 0 < i <= n && AllNull(hashes, i, n) then FlatBest(hashes, n) else hashes[i])
  }

  /** The same operation on flat state. */
  function FlatApply(f: Flat, op: Op): (r: Flat)
    requires f.Valid() && Fits(f.Top(), op)
    ensures r.Valid()
  {
    var n := f.Top();
    match op
    case Add(o, c, overwrite) => if c.Unspendable() then f else f.(views := f.views[n := f.views[n][o := c]])
    case Spend(o) => f.(views := f.views[n := f.views[n] - {o}])
    case SetBest(h) => f.(hashes := f.hashes[n := h])
    case AskBest(k) => f.(hashes := FlatAsked(f.hashes, k))
    case Sync => Flat(f.views[n - 1 := f.views[n]], f.hashes[n - 1 := f.hashes[n]])
    case Flush => Flat(f.views[n - 1 := f.views[n]], f.hashes[n - 1 := f.hashes[n]])
    case Push => Flat(f.views + [f.views[n]], f.hashes + [NULL_HASH])
    case Pop => Flat(f.views[..n], f.hashes[..n])
    case _ => f
  }

  /** The one thing that stops a run: writing into the database from a cache without a block hash. */
  predicate FlatFails(f: Flat, op: Op)
    requires f.Valid()
  {
    (op.Sync? || op.Flush?) && f.Top() == 1 && f.hashes[1] == NULL_HASH
  }

  /** What callers owe: only unspent coins are added, and without announcing an overwrite only where
      the view has none. */
  predicate Allowed(f: Flat, op: Op)
    requires f.Valid()
  {
    && Fits(f.Top(), op)
    && (op.Add? ==> !op.c.Spent() && (op.overwrite || op.c.Unspendable() || op.o !in f.views[f.Top()]))
  }

  /** Every operation is allowed where the run gets to it. */
  predicate AllAllowed(f: Flat, ops: seq<Op>)
    requires f.Valid()
    decreases |ops|
  {
    ops != [] ==>
      Allowed(f, ops[0]) && (FlatFails(f, ops[0]) || AllAllowed(FlatApply(f, ops[0]), ops[1..]))
  }

  predicate FlatSucceeds(f: Flat, ops: seq<Op>)
    requires f.Valid() && AllAllowed(f, ops)
    decreases |ops|
  {
    ops != [] ==> !FlatFails(f, ops[0]) && FlatSucceeds(FlatApply(f, ops[0]), ops[1..])
  }

  function FlatRun(f: Flat, ops: seq<Op>): (r: Flat)
    requires f.Valid() && AllAllowed(f, ops) && FlatSucceeds(f, ops)
    ensures r.Valid()
    decreases |ops|
  {
    if ops == [] then f else FlatRun(FlatApply(f, ops[0]), ops[1..])
  }

  /** The run goes through: no operation throws. */
  predicate Succeeds(s: Stack, ops: seq<Op>)
    decreases |ops|
  {
    ops != [] ==> Fits(|s.levels|, ops[0]) && !Throws(s, ops[0]) && Succeeds(Apply(s, ops[0]), ops[1..])
  }

  function Run(s: Stack, ops: seq<Op>): Stack
    requires Succeeds(s, ops)
    decreases |ops|
  {
    if ops == [] then s else Run(Apply(s, ops[0]), ops[1..])
  }

  function Hashes(s: Stack): (r: seq<nat>)
    ensures |r| == |s.levels| + 1
  {
    seq(|s.levels| + 1, n requires 0 <= n <= |s.levels| => if n == 0 then s.dbBlock else s.levels[n - 1].hashBlock)
  }

  function FlatOf(s: Stack): (r: Flat)
    ensures r.Valid() && r.Top() == |s.levels|
  {
    Flat(Views(s), Hashes(s))
  }

  lemma {:induction false} BestIsFlat(s: Stack, n: nat)
    requires n <= |s.levels|
    ensures Best(s, n) == FlatBest(Hashes(s), n)
  {
    if n > 0 {
      BestIsFlat(s, n - 1);
    }
  }

  /** A run that callers are allowed goes through exactly if the same run on flat state never writes into
      the database from a cache without a block hash.  It then keeps every flag right, and shows from every
      height the coins and the best block that the run on flat state gives. */
  lemma {:induction false} RunIsFlat(s: Stack, ops: seq<Op>)
    requires StackOk(s) && AllAllowed(FlatOf(s), ops)
    ensures Succeeds(s, ops) <==> FlatSucceeds(FlatOf(s), ops)
    ensures Succeeds(s, ops) ==>
              var t, f := Run(s, ops), FlatRun(FlatOf(s), ops);
              && StackOk(t) && |f.views| == |t.levels| + 1
              && forall n | 0 <= n <= |t.levels| :: View(t, n) == f.views[n] && Best(t, n) == FlatBest(f.hashes, n)
  {
    hide StackOk, FlatOf, Apply, FlatApply, Throws, Fits, Allowed, FlatFails, View, Best, FlatBest;
    RunReaches(s, ops);
    if Succeeds(s, ops) {
      FlatShows(Run(s, ops));
    }
  }

  lemma {:induction false} RunReaches(s: Stack, ops: seq<Op>)
    requires StackOk(s) && AllAllowed(FlatOf(s), ops)
    ensures Succeeds(s, ops) <==> FlatSucceeds(FlatOf(s), ops)
    ensures Succeeds(s, ops) ==> StackOk(Run(s, ops)) && FlatOf(Run(s, ops)) == FlatRun(FlatOf(s), ops)
    decreases |ops|
  {
    hide StackOk, FlatOf, Apply, FlatApply, Throws, Fits, Allowed, FlatFails;
    if ops != [] {
      StepIsFlat(s, ops[0]);
      if !Throws(s, ops[0]) {
        RunReaches(Apply(s, ops[0]), ops[1..]);
      }
    }
  }

  lemma FlatShows(s: Stack)
    ensures var f := FlatOf(s);
            |f.views| == |s.levels| + 1 && forall n | 0 <= n <= |s.levels| :: View(s, n) == f.views[n] && Best(s, n) == FlatBest(f.hashes, n)
  {
    hide View, Best, FlatBest;
    forall n | 0 <= n <= |s.levels|
      ensures Best(s, n) == FlatBest(Hashes(s), n)
    {
      BestIsFlat(s, n);
    }
  }

  /** One operation: it fails exactly where flat state says so, and otherwise does to the views and hashes
      what it does to flat state. */
  lemma StepIsFlat(s: Stack, op: Op)
    requires StackOk(s) && Allowed(FlatOf(s), op)
    ensures Fits(|s.levels|, op) && (Throws(s, op) <==> FlatFails(FlatOf(s), op))
    ensures !Throws(s, op) ==> StackOk(Apply(s, op)) && FlatOf(Apply(s, op)) == FlatApply(FlatOf(s), op)
  {
    hide StackOk, View, Best, FlatBest, WriteThrows, Views;
    CoinsStep(s, op);
    HashStep(s, op);
  }

  /** What an operation does to the coins. */
  lemma CoinsStep(s: Stack, op: Op)
    requires StackOk(s) && Allowed(FlatOf(s), op)
    ensures Throws(s, op) <==> FlatFails(FlatOf(s), op)
    ensures StackOk(Apply(s, op)) && Views(Apply(s, op)) == FlatApply(FlatOf(s), op).views
  {
    hide StackOk, View, Seen, Fetched, FromBelow, Added, AddThrows, Spent, Uncached, Synced, WriteThrows, BatchWritten, DbWritten, Asked, FlatBest;
    match op {
      case Add(o, c, overwrite) => AddStep(s, o, c, overwrite);
      case Spend(o) => SpendStep(s, o);
      case Lookup(n, o) => FetchKeeps(s, n, o); SameViews(s, Apply(s, op));
      case Uncache(n, o) => UncacheStep(s, n, o);
      case SetBest(h) => SameSlots(s, Apply(s, op));
      case AskBest(n) => SameSlots(s, Apply(s, op));
      case Sync => WriteStep(s, Synced(s.levels[|s.levels| - 1].slots));
      case Flush => WriteStep(s, map[]);
      case Push => PushStep(s);
      case Pop => PopStep(s);
    }
  }

  /** What an operation does to the block hashes. */
  lemma HashStep(s: Stack, op: Op)
    requires Fits(|s.levels|, op)
    ensures Hashes(Apply(s, op)) == FlatApply(FlatOf(s), op).hashes
  {
    hide View, Views, Added, Spent, Uncached, Synced, BatchWritten, DbWritten;
    if op.AskBest? {
      AskedHashes(s, op.n);
    }
  }

  /** Asking fills in exactly the heights that had to ask. */
  lemma {:induction false} AskedHashes(s: Stack, n: nat)
    requires n <= |s.levels|
    ensures Hashes(Asked(s, n)) == FlatAsked(Hashes(s), n)
  {
    hide Best, FlatBest;
    var h := Hashes(s);
    if n == 0 || h[n] != NULL_HASH {
      assert forall i | 0 < i <= n :: !AllNull(h, i, n);
    } else {
      AskedHashes(s, n - 1);
      BestIsFlat(s, n - 1);
      BestStep(h, n);
      var r, p := Hashes(Asked(s, n)), FlatAsked(h, n - 1);
      forall i | 0 <= i < |h|
        ensures r[i] == FlatAsked(h, n)[i]
      {
        assert i != n ==> r[i] == p[i];
        assert 0 < i < n ==> (AllNull(h, i, n) <==> AllNull(h, i, n - 1));
      }
    }
  }

  lemma BestStep(hashes: seq<nat>, n: nat)
    requires 0 < n < |hashes| && hashes[n] == NULL_HASH
    ensures FlatBest(hashes, n) == FlatBest(hashes, n - 1)
  {
  }

  /** Where a run stops: a cache put on a database and written down at once has no block hash. */
  lemma NewCacheFails(db: Coins, h: nat, write: Op)
    requires DbOk(db) && (write.Sync? || write.Flush?)
    ensures var s := Stack(db, h, []);
            StackOk(s) && AllAllowed(FlatOf(s), [Push, write]) && !Succeeds(s, [Push, write])
  {
    var s := Stack(db, h, []);
    var t := Apply(s, Push);
    assert Throws(t, write);
    assert [Push, write][1..] == [write];
    StepIsFlat(s, Push);
    assert FlatFails(FlatApply(FlatOf(s), Push), write);
  }

  /** Asking first avoids that, exactly if the database has a best block. */
  lemma AskedCacheSucceeds(db: Coins, h: nat, write: Op)
    requires DbOk(db) && (write.Sync? || write.Flush?)
    ensures Succeeds(Stack(db, h, []), [Push, AskBest(1), write]) <==> h != NULL_HASH
  {
    var s := Stack(db, h, []);
    var t := Apply(s, Push);
    var u := Apply(t, AskBest(1));
    assert !Throws(s, Push) && !Throws(t, AskBest(1));
    assert u.levels[0].hashBlock == Best(t, 0) == h;
    assert Throws(u, write) <==> h == NULL_HASH;
    hide Apply, Throws;
    assert [Push, AskBest(1), write][1..] == [AskBest(1), write] && [AskBest(1), write][1..] == [write];
    assert Succeeds(u, [write]) <==> !Throws(u, write);
    assert Succeeds(t, [AskBest(1), write]) <==> Succeeds(u, [write]);
  }

  lemma LevelIsOk(s: Stack, n: nat)
    requires StackOk(s) && n < |s.levels|
    ensures LevelOk(View(s, n), s.levels[n].slots)
  {
  }

  lemma SameViews(s: Stack, t: Stack)
    requires |s.levels| == |t.levels|
    requires forall n | 0 <= n <= |s.levels| :: View(t, n) == View(s, n)
    ensures Views(s) == Views(t)
  {
    hide View;
  }

  lemma SameSlots(s: Stack, t: Stack)
    requires StackOk(s) && |s.levels| == |t.levels| && s.db == t.db
    requires forall i | 0 <= i < |s.levels| :: t.levels[i].slots == s.levels[i].slots
    ensures StackOk(t) && Views(s) == Views(t)
  {
    hide View, LevelOk;
    forall n | 0 <= n <= |s.levels|
      ensures View(t, n) == View(s, n)
    {
      ViewBelow(s, t, n);
    }
  }

  /** Only the view from the top changed. */
  lemma TopView(s: Stack, t: Stack, top: Coins)
    requires |s.levels| == |t.levels| && View(t, |t.levels|) == top
    requires forall n | 0 <= n < |s.levels| :: View(t, n) == View(s, n)
    ensures Views(t) == Views(s)[|s.levels| := top]
  {
    hide View;
  }

  lemma AddStep(s: Stack, o: Outpoint, c: Coin, overwrite: bool)
    requires StackOk(s) && Allowed(FlatOf(s), Add(o, c, overwrite))
    ensures var op := Add(o, c, overwrite);
            !Throws(s, op) && StackOk(Apply(s, op)) && Views(Apply(s, op)) == FlatApply(FlatOf(s), op).views
  {
    hide View, Seen, LevelOk, Added, StackOk;
    var n := |s.levels|;
    var slots := s.levels[n - 1].slots;
    var more := Added(slots, o, c, overwrite);
    ViewStep(s, n - 1);
    LevelIsOk(s, n - 1);
    AddKeeps(View(s, n - 1), slots, o, c, overwrite);
    SeenAt(View(s, n - 1), slots, o);
    assert Views(s)[n] == View(s, n);
    TopKeeps(s, more);
    TopView(s, WithSlots(s, n - 1, more), View(WithSlots(s, n - 1, more), n));
  }

  lemma SpendStep(s: Stack, o: Outpoint)
    requires StackOk(s) && |s.levels| > 0
    ensures StackOk(Apply(s, Spend(o))) && Views(Apply(s, Spend(o))) == FlatApply(FlatOf(s), Spend(o)).views
  {
    hide View, Seen, LevelOk, Spent, StackOk, Fetched;
    var n, t := |s.levels|, Fetched(s, |s.levels|, o);
    FetchKeeps(s, n, o);
    FetchFinds(s, n, o);
    var slots := t.levels[n - 1].slots;
    ViewStep(t, n - 1);
    LevelIsOk(t, n - 1);
    SpendKeeps(View(t, n - 1), slots, o);
    TopKeeps(t, Spent(slots, o));
    TopView(s, WithSlots(t, n - 1, Spent(slots, o)), View(s, n) - {o});
  }

  lemma UncacheStep(s: Stack, n: nat, o: Outpoint)
    requires StackOk(s) && 0 < n <= |s.levels|
    ensures StackOk(Apply(s, Uncache(n, o))) && Views(Apply(s, Uncache(n, o))) == Views(s)
  {
    hide View, Seen, LevelOk, Uncached, StackOk;
    var slots := s.levels[n - 1].slots;
    ViewStep(s, n - 1);
    LevelIsOk(s, n - 1);
    UncacheKeeps(View(s, n - 1), slots, o);
    ReplaceKeeps(s, n - 1, Uncached(slots, o));
    SameViews(s, WithSlots(s, n - 1, Uncached(slots, o)));
  }

  lemma PushStep(s: Stack)
    requires StackOk(s)
    ensures StackOk(Apply(s, Push)) && Views(Apply(s, Push)) == FlatApply(FlatOf(s), Push).views
  {
    hide View, Seen, LevelOk;
    var t := Apply(s, Push);
    forall n | 0 <= n <= |s.levels|
      ensures View(t, n) == View(s, n)
    {
      ViewBelow(s, t, n);
    }
    ViewStep(t, |s.levels|);
    SeenEmpty(View(s, |s.levels|));
  }

  lemma SeenEmpty(below: Coins)
    ensures LevelOk(below, map[]) && Seen(below, map[]) == below
  {
  }

  lemma PopStep(s: Stack)
    requires StackOk(s) && |s.levels| > 0
    ensures StackOk(Apply(s, Pop)) && Views(Apply(s, Pop)) == FlatApply(FlatOf(s), Pop).views
  {
    var t := Apply(s, Pop);
    hide View, LevelOk;
    forall n | 0 <= n <= |t.levels|
      ensures View(t, n) == View(s, n)
    {
      ViewBelow(s, t, n);
    }
  }

  /** Writing the top cache down shows its view one height lower and changes nothing else. */
  lemma WriteStep(s: Stack, kept: Slots)
    requires StackOk(s) && |s.levels| > 0
    requires kept == Synced(s.levels[|s.levels| - 1].slots) || kept == map[]
    ensures StackOk(PushedDown(s, kept))
    ensures Views(PushedDown(s, kept)) == Views(s)[|s.levels| - 1 := View(s, |s.levels|)]
    ensures |s.levels| > 1 ==> !WriteThrows(s.levels[|s.levels| - 2].slots, s.levels[|s.levels| - 1].slots)
  {
    hide Seen, LevelOk, View, StackOk, BatchWritten, Synced;
    var n, t := |s.levels|, PushedDown(s, kept);
    var top := s.levels[n - 1].slots;
    ViewStep(s, n - 1);
    ViewStep(t, n - 1);
    LevelIsOk(s, n - 1);
    KeptKeeps(View(s, n - 1), top);
    if n == 1 {
      DbWriteStep(s, kept);
    } else {
      ViewStep(s, n - 2);
      ViewStep(t, n - 2);
      ViewBelow(s, t, n - 2);
      LevelIsOk(s, n - 2);
      WriteKeeps(View(s, n - 2), s.levels[n - 2].slots, top);
      WriteViews(s, t);
    }
  }

  lemma DbWriteStep(s: Stack, kept: Slots)
    requires StackOk(s) && |s.levels| == 1
    requires LevelOk(View(s, 1), kept) && Seen(View(s, 1), kept) == View(s, 1)
    ensures StackOk(PushedDown(s, kept)) && Views(PushedDown(s, kept)) == [View(s, 1), View(s, 1)]
    ensures |Views(s)| == 2 && Views(s)[0 := View(s, 1)] == [View(s, 1), View(s, 1)]
  {
    var t, top := PushedDown(s, kept), s.levels[0].slots;
    LevelIsOk(s, 0);
    DbWriteKeeps(s.db, top);
    ViewStep(s, 0);
    ViewStep(t, 0);
    hide Seen, LevelOk, DbWritten, DbOk, Unspent;
    assert View(t, 0) == View(s, 1) == View(t, 1);
    hide View;
  }

  lemma WriteViews(s: Stack, t: Stack)
    requires StackOk(s) && |s.levels| == |t.levels| > 1 && s.db == t.db
    requires forall i | 0 <= i < |s.levels| - 2 :: t.levels[i] == s.levels[i]
    requires var n := |s.levels|;
             && LevelOk(View(t, n - 2), t.levels[n - 2].slots) && LevelOk(View(t, n - 1), t.levels[n - 1].slots)
             && View(t, n - 1) == View(t, n) == View(s, n)
    ensures StackOk(t) && Views(t) == Views(s)[|s.levels| - 1 := View(s, |s.levels|)]
  {
    hide View, LevelOk;
    var n := |s.levels|;
    forall k | 0 <= k < n - 1
      ensures View(t, k) == View(s, k)
    {
      ViewBelow(s, t, k);
    }
  }

  // ---------------------------------------------------------------------------------------------
  // The best block, and what spending reports

  /** Asking for the best block changes no answer, and the top cache then holds it. */
  lemma {:induction false} AskKeeps(s: Stack, n: nat)
    requires n <= |s.levels|
    ensures forall k | 0 <= k <= |s.levels| :: Best(Asked(s, n), k) == Best(s, k)
    ensures n > 0 ==> Asked(s, n).levels[n - 1].hashBlock == Best(s, n)
  {
    if n > 0 && s.levels[n - 1].hashBlock == NULL_HASH {
      AskKeeps(s, n - 1);
      var t, r := Asked(s, n - 1), Asked(s, n);
      forall k | 0 <= k <= |s.levels|
        ensures Best(r, k) == Best(s, k)
      {
        if k < n {
          BestBelow(t, r, k);
        } else {
          BestBelow(t, r, n - 1);
          assert Best(t, n - 1) == Best(s, n - 1);
          assert Best(r, n) == Best(s, n);
          BestAbove(s, r, n, k);
        }
      }
    }
  }

  lemma {:induction false} BestBelow(s: Stack, t: Stack, n: nat)
    requires n <= |s.levels| && n <= |t.levels| && s.dbBlock == t.dbBlock
    requires forall i | 0 <= i < n :: s.levels[i].hashBlock == t.levels[i].hashBlock
    ensures Best(s, n) == Best(t, n)
  {
    if n > 0 {
      BestBelow(s, t, n - 1);
    }
  }

  lemma {:induction false} BestAbove(s: Stack, t: Stack, i: nat, n: nat)
    requires i <= n <= |s.levels| == |t.levels| && Best(s, i) == Best(t, i)
    requires forall k | i <= k < n :: s.levels[k].hashBlock == t.levels[k].hashBlock
    ensures Best(s, n) == Best(t, n)
  {
    if i < n {
      BestAbove(s, t, i, n - 1);
    }
  }

  /** Writing the top cache down, where that goes through, gives the view below the same best block.  It
      keeps the old answer exactly if the cache has its own block hash or the cache below loses nothing by
      its absence. */
  lemma WriteBest(s: Stack, kept: Slots)
    requires |s.levels| > 0
    ensures var n, t := |s.levels|, PushedDown(s, kept);
            !NullReachesDb(s) ==>
              && Best(t, n - 1) == Best(t, n)
              && (Best(t, n) == Best(s, n) <==>
                  s.levels[n - 1].hashBlock != NULL_HASH || s.levels[n - 2].hashBlock in {NULL_HASH, Best(s, n - 2)})
  {
    var n, t := |s.levels|, PushedDown(s, kept);
    if n > 1 {
      BestBelow(s, t, n - 2);
    }
  }

  /** A cache that was never told its block makes the cache below forget its own. */
  lemma WriteForgetsBest(h: nat, g: nat)
    requires h != g && h != NULL_HASH
    ensures var s := Stack(map[], g, [Level(map[], h), Level(map[], NULL_HASH)]);
            Best(s, 2) == h && Best(PushedDown(s, map[]), 2) == g
  {
    var t := PushedDown(Stack(map[], g, [Level(map[], h), Level(map[], NULL_HASH)]), map[]);
    assert Best(t, 0) == g && Best(t, 1) == g;
  }

  /** Spending reports success for every coin of the view, but also, without effect on the view, for
      one the cache remembers as spent or a database answers as spent. */
  lemma SpendReports(s: Stack, o: Outpoint)
    requires |s.levels| > 0
    ensures var n := |s.levels|;
            o in Fetched(s, n, o).levels[n - 1].slots <==>
            (o in View(s, n) || o in s.levels[n - 1].slots || (n == 1 && o in s.db))
  {
    var n := |s.levels|;
    FetchFinds(s, n, o);
    FetchedAnswer(s, n - 1, o);
    ViewStep(s, n - 1);
    SeenAt(View(s, n - 1), s.levels[n - 1].slots, o);
    hide Seen, View;
  }
}
