/**
 * A database and a stack of coins caches on it, each the base of the next.
 *
 * Every method does to the stack what module `Coins` says its operation does, so what is proved there
 * of all runs holds of these caches.
 */
module CoinsStacks {
  import opened Wrappers
  import opened Coins
  import opened CoinsCaches

  function Levels(caches: seq<CoinsCache>): (r: seq<Level>)
    reads caches
    ensures |r| == |caches|
    ensures forall i | 0 <= i < |caches| :: r[i] == Level(caches[i].Contents(), caches[i].hashBlock)
  {
    if caches == [] then [] else Levels(caches[..|caches| - 1]) + [Level(caches[|caches| - 1].Contents(), caches[|caches| - 1].hashBlock)]
  }

  class CoinsStack {
    var db: Coins
    var dbBlock: nat
    var caches: seq<CoinsCache>

    ghost predicate Valid()
      reads this, caches
    {
      && DbOk(db)
      && (forall i, j | 0 <= i < j < |caches| :: caches[i] != caches[j])
      && (forall i | 0 <= i < |caches| :: caches[i].Valid())
    }

    function State(): Stack
      reads this, caches
    {
      Stack(db, dbBlock, Levels(caches))
    }

    constructor (db: Coins, dbBlock: nat)
      requires DbOk(db)
      ensures Valid() && State() == Stack(db, dbBlock, []) && caches == []
    {
      this.db, this.dbBlock, caches := db, dbBlock, [];
    }

    /** One cache changed: the state differs in one level. */
    twostate lemma OneChanged(i: nat)
      requires old(Valid()) && i < |old(caches)| && caches == old(caches) && db == old(db) && dbBlock == old(dbBlock)
      requires forall j | 0 <= j < |caches| && j != i :: unchanged(caches[j])
      requires caches[i].Valid()
      ensures Valid()
      ensures State() == old(State()).(levels := old(State()).levels[i := Level(caches[i].Contents(), caches[i].hashBlock)])
    {
      hide Linked, Total, Levels;
    }

    method FillCache(i: nat, o: Outpoint, c: Coin)
      requires Valid() && i < |caches| && o !in caches[i].Contents() && c.WellFormed()
      modifies caches[i]
      ensures Valid()
      ensures State() == WithSlots(old(State()), i, old(State()).levels[i].slots[o := Slot(c, false, c.Spent())])
    {
      hide Linked, Total, Levels, CoinsCache.Valid;
      var cache := caches[i];
      CacheIsValid(i);
      cache.Fill(o, c);
      OneChanged(i);
    }

    lemma CacheIsValid(i: nat)
      requires Valid() && i < |caches|
      ensures caches[i].Valid() && caches[i].Contents().Keys == caches[i].entries.Keys
      ensures State().levels[i] == Level(caches[i].Contents(), caches[i].hashBlock)
    {
    }

    /** Look a coin up in cache `n`, filling the caches on the way. */
    method FetchCoin(n: nat, o: Outpoint) returns (found: bool)
      requires Valid() && 0 < n <= |caches|
      modifies caches
      ensures Valid() && State() == Fetched(old(State()), n, o)
      ensures found <==> o in caches[n - 1].entries
      decreases n, 0
    {
      hide CoinsCache.Valid, Levels, Linked, Total, FromBelow, View, DbOk;
      if o !in caches[n - 1].entries {
        var coin := GetCoin(n - 1, o);
        FromBelowWellFormed(old(State()), n - 1, o);
        if coin.Some? {
          FillCache(n - 1, o, coin.value);
        }
      }
      found := o in caches[n - 1].entries;
    }

    /** The coin seen from above `n` caches; a database may answer with a spent one. */
    method GetCoin(n: nat, o: Outpoint) returns (r: Option<Coin>)
      requires Valid() && n <= |caches|
      modifies caches
      ensures Valid() && State() == Fetched(old(State()), n, o)
      ensures r == FromBelow(old(State()), n, o)
      decreases n, 1
    {
      if n == 0 {
        r := if o in db then Some(db[o]) else None;
      } else {
        var found := FetchCoin(n, o);
        FetchFinds(old(State()), n, o);
        if found && !caches[n - 1].entries[o].slot.coin.Spent() {
          r := Some(caches[n - 1].entries[o].slot.coin);
        } else {
          r := None;
        }
      }
    }

    /** Whether an unspent coin is seen from above `n` caches. */
    method HaveCoin(n: nat, o: Outpoint) returns (have: bool)
      requires Valid() && 0 < n <= |caches|
      modifies caches
      ensures Valid() && State() == Fetched(old(State()), n, o)
      ensures have <==> o in View(old(State()), n)
    {
      var found := FetchCoin(n, o);
      FetchFinds(old(State()), n, o);
      have := found && !caches[n - 1].entries[o].slot.coin.Spent();
    }

    method AddCoin(o: Outpoint, c: Coin, overwrite: bool) returns (threw: bool)
      requires Valid() && |caches| > 0 && !c.Spent()
      modifies caches[|caches| - 1]
      ensures Valid() && State() == Apply(old(State()), Add(o, c, overwrite))
      ensures threw <==> Throws(old(State()), Add(o, c, overwrite))
    {
      hide Linked, Total, Levels, Added, AddThrows, CoinsCache.Valid;
      var n := |caches|;
      var top := caches[n - 1];
      CacheIsValid(n - 1);
      threw := top.AddCoin(o, c, overwrite);
      OneChanged(n - 1);
    }

    /** Spend a coin at the top; `moveout` is the coin spent. */
    method SpendCoin(o: Outpoint) returns (found: bool, moveout: Coin)
      requires Valid() && |caches| > 0
      modifies caches
      ensures Valid() && State() == Apply(old(State()), Spend(o))
      ensures found <==> o in Fetched(old(State()), |caches|, o).levels[|caches| - 1].slots
      ensures o in View(old(State()), |caches|) ==> found && moveout == View(old(State()), |caches|)[o]
    {
      hide Linked, Total, Levels, Spent, Fetched, View, CoinsCache.Valid;
      var n := |caches|;
      found := FetchCoin(n, o);
      FetchFinds(old(State()), n, o);
      CacheIsValid(n - 1);
      found, moveout := SpendAt(n - 1, o);
    }

    method SpendAt(i: nat, o: Outpoint) returns (found: bool, moveout: Coin)
      requires Valid() && i < |caches|
      modifies caches[i]
      ensures Valid() && State() == WithSlots(old(State()), i, Spent(old(State()).levels[i].slots, o))
      ensures found <==> o in old(State()).levels[i].slots
      ensures found ==> moveout == old(State()).levels[i].slots[o].coin
    {
      hide Linked, Total, Levels, Spent, CoinsCache.Valid;
      CacheIsValid(i);
      var cache := caches[i];
      found, moveout := cache.SpendFetched(o);
      OneChanged(i);
    }

    method Uncache(n: nat, o: Outpoint)
      requires Valid() && 0 < n <= |caches|
      modifies caches[n - 1]
      ensures Valid() && State() == Apply(old(State()), Op.Uncache(n, o))
    {
      hide Linked, Total, Levels, Uncached, CoinsCache.Valid;
      CacheIsValid(n - 1);
      var cache := caches[n - 1];
      cache.Uncache(o);
      OneChanged(n - 1);
    }

    method SetBlock(i: nat, hash: nat)
      requires Valid() && i < |caches|
      modifies caches[i]
      ensures Valid()
      ensures State() == old(State()).(levels := old(State()).levels[i := old(State()).levels[i].(hashBlock := hash)])
    {
      hide Linked, Total, Levels;
      CacheIsValid(i);
      var cache := caches[i];
      cache.hashBlock := hash;
      OneChanged(i);
    }

    method SetBestBlock(hash: nat)
      requires Valid() && |caches| > 0
      modifies caches[|caches| - 1]
      ensures Valid() && State() == Apply(old(State()), SetBest(hash))
    {
      SetBlock(|caches| - 1, hash);
    }

    /** The best block seen from above `n` caches, remembered by those that had to ask. */
    method GetBestBlock(n: nat) returns (hash: nat)
      requires Valid() && n <= |caches|
      modifies caches
      ensures Valid() && State() == Asked(old(State()), n)
      ensures hash == Best(old(State()), n)
      decreases n
    {
      hide Linked, Total, Levels, CoinsCache.Valid;
      if n == 0 {
        return dbBlock;
      }
      if caches[n - 1].hashBlock == NULL_HASH {
        var below := GetBestBlock(n - 1);
        SetBlock(n - 1, below);
      }
      hash := caches[n - 1].hashBlock;
    }

    method Push()
      requires Valid()
      modifies this`caches
      ensures Valid() && State() == Apply(old(State()), Op.Push)
      ensures |caches| == |old(caches)| + 1 && fresh(caches[|old(caches)|])
    {
      hide Linked, Total;
      var cache := new CoinsCache();
      caches := caches + [cache];
    }

    method Pop()
      requires Valid() && |caches| > 0
      modifies this`caches
      ensures Valid() && State() == Apply(old(State()), Op.Pop)
    {
      hide Linked, Total;
      caches := caches[..|caches| - 1];
    }

    /** The top cache and the one below it changed. */
    twostate lemma TwoChanged()
      requires old(Valid()) && |old(caches)| > 1 && caches == old(caches) && db == old(db) && dbBlock == old(dbBlock)
      requires forall j | 0 <= j < |caches| - 2 :: unchanged(caches[j])
      requires caches[|caches| - 2].Valid() && caches[|caches| - 1].Valid()
      ensures Valid()
      ensures var n := |caches|;
              State() == old(State()).(levels := old(State()).levels[n - 2 := Level(caches[n - 2].Contents(), caches[n - 2].hashBlock)]
                                                                     [n - 1 := Level(caches[n - 1].Contents(), caches[n - 1].hashBlock)])
    {
      hide Linked, Total, Levels;
    }

    /** Write the top cache into the one below it. */
    method WriteToCache(willErase: bool) returns (ok: bool)
      requires Valid() && |caches| > 1
      modifies caches[|caches| - 2], caches[|caches| - 1]
      ensures Valid() && caches == old(caches)
      ensures ok <==> !Throws(old(State()), Op.Flush)
      ensures ok ==> State() == PushedDown(old(State()), if willErase then map[] else Synced(old(State()).levels[|caches| - 1].slots))
      ensures ok && !willErase ==> caches[|caches| - 1].first == Sentinel
    {
      hide Linked, Total, Levels, CoinsCache.Valid, BatchWritten, Synced, WriteThrows;
      var n := |caches|;
      CacheIsValid(n - 2);
      CacheIsValid(n - 1);
      var parent, top := caches[n - 2], caches[n - 1];
      ok := parent.BatchWrite(top, willErase, top.hashBlock);
      if ok && willErase {
        top.Clear();
      }
      TwoChanged();
    }

    /** Write the only cache into the database, which insists on a block hash. */
    method WriteToDatabase(willErase: bool) returns (ok: bool)
      requires Valid() && |caches| == 1
      modifies this`db, this`dbBlock, caches[0]
      ensures Valid() && caches == old(caches)
      ensures ok <==> !NullReachesDb(old(State()))
      ensures ok ==> State() == PushedDown(old(State()), if willErase then map[] else Synced(old(State()).levels[0].slots))
      ensures ok && !willErase ==> caches[0].first == Sentinel
    {
      hide Linked, Total, Levels, DbWritten, Synced;
      CacheIsValid(0);
      var top := caches[0];
      ok := top.hashBlock != NULL_HASH;
      if !ok {
        return;
      }
      DbStaysOk(db, top.Contents());
      var written := top.WriteTo(db, willErase);
      db, dbBlock := written, top.hashBlock;
      if willErase {
        top.Clear();
      }
      assert State().levels == [Level(top.Contents(), top.hashBlock)];
    }

    /** Write the top cache down and keep its unspent coins; false stands for the exception or the failed
        assertion. */
    method Sync() returns (ok: bool)
      requires Valid() && |caches| > 0
      modifies this`db, this`dbBlock, caches
      ensures Valid() && caches == old(caches)
      ensures ok <==> !Throws(old(State()), Op.Sync)
      ensures ok ==> State() == Apply(old(State()), Op.Sync)
    {
      hide Linked, Total, Levels, Synced, PushedDown, WriteThrows, CoinsCache.Valid;
      if |caches| == 1 {
        ok := WriteToDatabase(false);
      } else {
        ok := WriteToCache(false);
      }
      assert ok ==> caches[|caches| - 1].first == Sentinel;
    }

    /** Write the top cache down and wipe it. */
    method Flush() returns (ok: bool)
      requires Valid() && |caches| > 0
      modifies this`db, this`dbBlock, caches
      ensures Valid() && caches == old(caches)
      ensures ok <==> !Throws(old(State()), Op.Flush)
      ensures ok ==> State() == Apply(old(State()), Op.Flush)
    {
      hide Linked, Total, Levels, Synced, PushedDown, WriteThrows, CoinsCache.Valid;
      if |caches| == 1 {
        ok := WriteToDatabase(true);
      } else {
        ok := WriteToCache(true);
      }
    }
  }

  lemma DbStaysOk(db: Coins, slots: Slots)
    requires DbOk(db) && forall o | o in slots :: slots[o].coin.WellFormed()
    ensures DbOk(DbWritten(db, slots))
  {
  }
}
