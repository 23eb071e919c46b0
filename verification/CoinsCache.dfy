/**
 The mutable cache objects: each method is proved to take the tower of caches
 it stands on to the tower that the functions of module Coins describe.
 */
module CoinsCache {
  import opened Basics
  import opened Coins

  class CoinsDb {
    var coins: CoinMap

    constructor (m: CoinMap)
      ensures coins == m
    {
      coins := m;
    }

    method GetCoin(o: OutPoint) returns (r: Option<Coin>)
      ensures r == if o in coins then Some(coins[o]) else None
    {
      r := if o in coins then Some(coins[o]) else None;
    }

    /** Writes the dirty entries: spent coins are erased, the others stored. */
    method BatchWrite(mapCoins: Cache, erase: bool) returns (left: Cache)
      modifies this
      ensures coins == DbWrite(old(coins), mapCoins)
      ensures left == if erase then map[] else mapCoins
    {
      var rest := mapCoins.Keys;
      DbWriteNone(coins, mapCoins);
      while rest != {}
        invariant rest <= mapCoins.Keys
        invariant coins == DbWrite(old(coins), mapCoins - rest)
        decreases |rest|
      {
        var o :| o in rest;
        var e := mapCoins[o];
        DbWriteNext(old(coins), mapCoins, rest, o);
        if e.isDirty {
          coins := if e.coin.IsSpent() then coins - {o} else coins[o := e.coin];
        }
        rest := rest - {o};
      }
      assert mapCoins - {} == mapCoins;
      left := if erase then map[] else mapCoins;
    }
  }

  lemma DbWriteNone(m: CoinMap, child: Cache)
    ensures DbWrite(m, child - child.Keys) == m
  {
  }

  lemma DbWriteNext(m: CoinMap, child: Cache, rest: set<OutPoint>, o: OutPoint)
    requires o in rest && rest <= child.Keys
    ensures var was := DbWrite(m, child - rest);
            DbWrite(m, child - (rest - {o})) ==
            if !child[o].isDirty then was else if child[o].coin.IsSpent() then was - {o} else was[o := child[o].coin]
  {
  }

  /** One cache after one merged entry. */
  ghost function MergeOne(c: Cache, o: OutPoint, e: Entry): Cache {
    match Merge(Find(c, o), e)
    case None => c - {o}
    case Some(x) => c[o := x]
  }

  lemma MergeNone(c: Cache, child: Cache)
    ensures MergeAll(c, child - child.Keys) == c
  {
  }

  lemma MergeNext(c: Cache, child: Cache, rest: set<OutPoint>, o: OutPoint)
    requires o in rest && rest <= child.Keys
    ensures Find(MergeAll(c, child - rest), o) == Find(c, o)
    ensures MergeAll(c, child - (rest - {o})) == MergeOne(MergeAll(c, child - rest), o, child[o])
  {
  }

  /** `c` with every entry outside `rest` cleaned. */
  ghost function PartlyCleaned(c: Cache, rest: set<OutPoint>): Cache {
    map o | o in c && (o in rest || !c[o].coin.IsSpent()) :: if o in rest then c[o] else Entry(c[o].coin, false, false)
  }

  lemma CleanedStart(c: Cache)
    ensures PartlyCleaned(c, c.Keys) == c
  {
  }

  lemma CleanedEnd(c: Cache)
    ensures PartlyCleaned(c, {}) == Cleaned(c)
  {
  }

  lemma CleanedNext(c: Cache, rest: set<OutPoint>, o: OutPoint)
    requires o in rest && rest <= c.Keys
    ensures var was := PartlyCleaned(c, rest);
            && o in was && was[o] == c[o]
            && PartlyCleaned(c, rest - {o}) == if c[o].coin.IsSpent() then was - {o}
               else was[o := Entry(c[o].coin, false, false)]
  {
  }

  class CoinsViewCache {
    const db: CoinsDb
    const base: CoinsViewCache?
    ghost const depth: nat
    ghost const caches: set<CoinsViewCache>
    var cacheCoins: Cache
    var cachedCoinsUsage: int

    /** Bases form a finite chain down to one database; `caches` is the chain from here down. */
    ghost predicate Linked()
      decreases depth
    {
      && this in caches && (forall c <- caches :: c.depth <= depth)
      && (base != null ==> base.depth < depth && base.db == db && caches == {this} + base.caches && base.Linked())
    }

    /** The tower this cache stands on, itself included. */
    ghost function Tower(): Tower
      requires Linked()
      reads caches, db
      decreases depth, 1
    {
      Level(cacheCoins, cachedCoinsUsage, Below())
    }

    ghost function Below(): Tower
      requires Linked()
      reads if base == null then {} else base.caches, db
      decreases depth, 0
    {
      if base == null then Db(db.coins) else base.Tower()
    }

    constructor OnDb(d: CoinsDb)
      ensures Linked() && base == null && db == d
      ensures Tower() == Level(map[], 0, Db(d.coins))
    {
      db, base, depth, caches := d, null, 0, {this};
      cacheCoins, cachedCoinsUsage := map[], 0;
    }

    constructor OnCache(b: CoinsViewCache)
      requires b.Linked()
      ensures Linked() && base == b && db == b.db
      ensures Tower() == Level(map[], 0, b.Tower())
    {
      db, base, depth, caches := b.db, b, b.depth + 1, {this} + b.caches;
      cacheCoins, cachedCoinsUsage := map[], 0;
    }

    method FetchCoin(o: OutPoint) returns (found: bool)
      requires Linked()
      modifies caches
      ensures Tower() == Fetch(old(Tower()), o)
      ensures found <==> o in cacheCoins
      decreases depth, 0
    {
      if o in cacheCoins {
        return true;
      }
      var r: Option<Coin>;
      if base == null {
        r := db.GetCoin(o);
      } else {
        r := base.GetCoin(o);
      }
      match r
      case None => return false;
      case Some(coin) =>
        cacheCoins := cacheCoins[o := Entry(coin, false, coin.IsSpent())];
        cachedCoinsUsage := cachedCoinsUsage + coin.DynamicMemoryUsage();
        return true;
    }

    method GetCoin(o: OutPoint) returns (r: Option<Coin>)
      requires Linked()
      modifies caches
      ensures Tower() == Fetch(old(Tower()), o)
      ensures r == Cached(Tower(), o)
      ensures old(Inv(Tower())) ==> r == var m := old(View(Tower())); if o in m then Some(m[o]) else None
      decreases depth, 1
    {
      var found := FetchCoin(o);
      r := if found && !cacheCoins[o].coin.IsSpent() then Some(cacheCoins[o].coin) else None;
      if old(Inv(Tower())) {
        FetchKeeps(old(Tower()), o);
      }
    }

    method HaveCoin(o: OutPoint) returns (r: bool)
      requires Linked()
      modifies caches
      ensures Tower() == Fetch(old(Tower()), o)
      ensures old(Inv(Tower())) ==> r == (o in old(View(Tower())))
    {
      var found := FetchCoin(o);
      r := found && !cacheCoins[o].coin.IsSpent();
      if old(Inv(Tower())) {
        FetchKeeps(old(Tower()), o);
      }
    }

    method AddCoin(o: OutPoint, coin: Coin, possibleOverwrite: bool) returns (thrown: bool)
      requires Linked() && coin.value != -1
      modifies this
      ensures Tower() == Add(old(Tower()), o, coin, possibleOverwrite)
      ensures thrown <==>
        && !possibleOverwrite && o in old(cacheCoins) && old(cacheCoins)[o].coin.value != -1
        && |coin.script| <= 10000 && (coin.script != [] ==> coin.script[0] != 0x6a)
      ensures old(Inv(Tower())) && (!possibleOverwrite ==> o !in old(View(Tower()))) ==>
        && !thrown && Inv(Tower())
        && View(Tower()) == if |coin.script| > 10000 || (coin.script != [] && coin.script[0] == 0x6a)
                            then old(View(Tower())) else old(View(Tower()))[o := coin]
    {
      if old(Inv(Tower())) && (!possibleOverwrite ==> o !in old(View(Tower()))) {
        AddKeeps(Tower(), o, coin, possibleOverwrite);
      }
      thrown := EnterCoin(o, coin, possibleOverwrite);
    }

    /** The work of AddCoin. */
    method EnterCoin(o: OutPoint, coin: Coin, possibleOverwrite: bool) returns (thrown: bool)
      requires Linked() && coin.value != -1
      modifies this
      ensures Tower() == Add(old(Tower()), o, coin, possibleOverwrite)
      ensures thrown <==> Refused(old(Tower()), o, coin, possibleOverwrite)
    {
      if coin.IsUnspendable() {
        return false;
      }
      var inserted := o !in cacheCoins;
      var e := if inserted then Entry(CLEARED, false, false) else cacheCoins[o];
      var setFresh := false;
      if !inserted {
        cachedCoinsUsage := cachedCoinsUsage - e.coin.DynamicMemoryUsage();
      }
      if !possibleOverwrite {
        if !e.coin.IsSpent() {
          assert Below() == old(Below());
          return true;
        }
        setFresh := !e.isDirty;
      }
      cacheCoins := cacheCoins[o := Entry(coin, true, e.isFresh || setFresh)];
      cachedCoinsUsage := cachedCoinsUsage + coin.DynamicMemoryUsage();
      assert Below() == old(Below());
      return false;
    }

    /** Returns true also for an outpoint whose cached entry is already spent; `moveout` is then a spent coin. */
    method SpendCoin(o: OutPoint) returns (ok: bool, moveout: Coin)
      requires Linked()
      modifies caches
      ensures Tower() == Spend(old(Tower()), o)
      ensures ok <==> o in Fetch(old(Tower()), o).cache
      ensures old(Inv(Tower())) ==> (o in old(View(Tower())) <==> ok && !moveout.IsSpent())
      ensures old(Inv(Tower())) && o in old(View(Tower())) ==> moveout == old(View(Tower()))[o]
    {
      ok := FetchCoin(o);
      ghost var below := Below();
      if old(Inv(Tower())) {
        FetchKeeps(old(Tower()), o);
        ViewUnspent(old(Tower()));
      }
      if !ok {
        return false, CLEARED;
      }
      var e := cacheCoins[o];
      cachedCoinsUsage := cachedCoinsUsage - e.coin.DynamicMemoryUsage();
      moveout := e.coin;
      if e.isFresh {
        cacheCoins := cacheCoins - {o};
      } else {
        cacheCoins := cacheCoins[o := Entry(CLEARED, true, e.isFresh)];
      }
      assert Below() == below;
    }

    method MergeEntry(o: OutPoint, e: Entry) returns (thrown: bool)
      modifies this
      ensures thrown <==> Clash(old(cacheCoins), o, e)
      ensures !thrown ==> cacheCoins == MergeOne(old(cacheCoins), o, e)
      ensures cachedCoinsUsage - Usage(cacheCoins) == old(cachedCoinsUsage) - Usage(old(cacheCoins))
    {
      if !e.isDirty {
        return false;
      }
      if o !in cacheCoins {
        if !(e.isFresh && e.coin.IsSpent()) {
          UsageUpdate(cacheCoins, o, Entry(e.coin, true, e.isFresh));
          cacheCoins := cacheCoins[o := Entry(e.coin, true, e.isFresh)];
          cachedCoinsUsage := cachedCoinsUsage + e.coin.DynamicMemoryUsage();
        }
        return false;
      }
      var us := cacheCoins[o];
      if e.isFresh && !us.coin.IsSpent() {
        return true;
      }
      cachedCoinsUsage := cachedCoinsUsage - us.coin.DynamicMemoryUsage();
      if us.isFresh && e.coin.IsSpent() {
        UsageWithout(cacheCoins, o);
        cacheCoins := cacheCoins - {o};
      } else {
        UsageUpdate(cacheCoins, o, Entry(e.coin, true, us.isFresh));
        cacheCoins := cacheCoins[o := Entry(e.coin, true, us.isFresh)];
        cachedCoinsUsage := cachedCoinsUsage + e.coin.DynamicMemoryUsage();
      }
      return false;
    }

    /** Merges a child's dirty entries into this cache, in any order; stops at a misapplied FRESH flag. */
    method MergeBatch(mapCoins: Cache) returns (thrown: bool)
      modifies this
      ensures thrown <==> exists o <- mapCoins :: Clash(old(cacheCoins), o, mapCoins[o])
      ensures !thrown ==> cacheCoins == MergeAll(old(cacheCoins), mapCoins)
      ensures cachedCoinsUsage - Usage(cacheCoins) == old(cachedCoinsUsage) - Usage(old(cacheCoins))
    {
      var rest := mapCoins.Keys;
      MergeNone(cacheCoins, mapCoins);
      while rest != {}
        invariant rest <= mapCoins.Keys
        invariant cacheCoins == MergeAll(old(cacheCoins), mapCoins - rest)
        invariant cachedCoinsUsage - Usage(cacheCoins) == old(cachedCoinsUsage) - Usage(old(cacheCoins))
        invariant forall o <- mapCoins :: o !in rest ==> !Clash(old(cacheCoins), o, mapCoins[o])
        decreases |rest|
      {
        var o :| o in rest;
        MergeNext(old(cacheCoins), mapCoins, rest, o);
        thrown := MergeEntry(o, mapCoins[o]);
        if thrown {
          assert Clash(old(cacheCoins), o, mapCoins[o]);
          return;
        }
        rest := rest - {o};
      }
      assert mapCoins - {} == mapCoins;
      thrown := false;
    }

    method BatchWrite(mapCoins: Cache, erase: bool) returns (left: Cache, thrown: bool)
      requires Linked()
      modifies this
      ensures thrown <==> exists o <- mapCoins :: mapCoins[o].isDirty && mapCoins[o].isFresh
                            && o in old(cacheCoins) && old(cacheCoins)[o].coin.value != -1
      ensures !thrown ==> Tower() == Write(old(Tower()), mapCoins)
      ensures !thrown ==> left == if erase then map[] else mapCoins
    {
      thrown := MergeBatch(mapCoins);
      left := if erase then map[] else mapCoins;
      assert Below() == old(Below());
    }

    /** The call to the base that Flush and Sync share. */
    method WriteDown(erase: bool) returns (thrown: bool)
      requires Linked()
      modifies caches, db
      ensures thrown <==> Misapplied(old(Below()), old(cacheCoins))
      ensures !thrown ==> Below() == Write(old(Below()), old(cacheCoins))
      ensures !thrown ==> cacheCoins == if erase then map[] else old(cacheCoins)
      ensures cachedCoinsUsage == old(cachedCoinsUsage)
    {
      thrown := false;
      if base == null {
        cacheCoins := db.BatchWrite(cacheCoins, erase);
      } else {
        var left;
        left, thrown := base.BatchWrite(cacheCoins, erase);
        ghost var below := Below();
        cacheCoins := left;
        assert Below() == below;
      }
    }

    /** Flush; both ways it can throw are reported in `thrown`. */
    method Flush() returns (thrown: bool)
      requires Linked()
      modifies caches, db
      ensures thrown <==> Misapplied(old(Below()), old(cacheCoins))
      ensures !thrown ==> Tower() == Coins.Flush(old(Tower()))
      ensures !thrown ==> cacheCoins == map[] && cachedCoinsUsage == 0
    {
      thrown := WriteDown(true);
      if !thrown && cacheCoins != map[] {
        return true;
      }
      ghost var below := Below();
      cachedCoinsUsage := 0;
      assert Below() == below;
    }

    method Sync() returns (thrown: bool)
      requires Linked()
      modifies caches, db
      ensures thrown <==> Misapplied(old(Below()), old(cacheCoins))
      ensures !thrown ==> Tower() == Coins.Sync(old(Tower()))
      ensures !thrown ==> forall o :: o in cacheCoins <==> o in old(cacheCoins) && old(cacheCoins)[o].coin.value != -1
      ensures !thrown ==> forall o <- cacheCoins :: cacheCoins[o] == Entry(old(cacheCoins)[o].coin, false, false)
    {
      thrown := WriteDown(false);
      if !thrown {
        ghost var below := Below();
        ClearFlags();
        assert Below() == below;
      }
    }

    /** The second half of Sync: spent coins go, the flags of the others are reset. */
    method ClearFlags()
      modifies this
      ensures cacheCoins == Cleaned(old(cacheCoins))
      ensures cachedCoinsUsage - Usage(cacheCoins) == old(cachedCoinsUsage) - Usage(old(cacheCoins))
    {
      var rest := cacheCoins.Keys;
      CleanedStart(cacheCoins);
      while rest != {}
        invariant rest <= old(cacheCoins).Keys
        invariant cacheCoins == PartlyCleaned(old(cacheCoins), rest)
        invariant cachedCoinsUsage - Usage(cacheCoins) == old(cachedCoinsUsage) - Usage(old(cacheCoins))
        decreases |rest|
      {
        var o :| o in rest;
        CleanedNext(old(cacheCoins), rest, o);
        var e := cacheCoins[o];
        if e.coin.IsSpent() {
          UsageWithout(cacheCoins, o);
          cachedCoinsUsage := cachedCoinsUsage - e.coin.DynamicMemoryUsage();
          cacheCoins := cacheCoins - {o};
        } else {
          UsageUpdate(cacheCoins, o, Entry(e.coin, false, false));
          cacheCoins := cacheCoins[o := Entry(e.coin, false, false)];
        }
        rest := rest - {o};
      }
      CleanedEnd(old(cacheCoins));
    }

    method Uncache(o: OutPoint)
      requires Linked()
      modifies this
      ensures Tower() == Coins.Uncache(old(Tower()), o)
      ensures cacheCoins == if o in old(cacheCoins) && !old(cacheCoins)[o].isDirty && !old(cacheCoins)[o].isFresh
                            then old(cacheCoins) - {o} else old(cacheCoins)
    {
      if o in cacheCoins && !cacheCoins[o].isDirty && !cacheCoins[o].isFresh {
        cachedCoinsUsage := cachedCoinsUsage - cacheCoins[o].coin.DynamicMemoryUsage();
        cacheCoins := cacheCoins - {o};
        assert Below() == old(Below());
      }
    }

    /** The self-check accepts exactly the caches whose flags are legal and whose accounting is exact. */
    method SanityCheck() returns (ok: bool)
      ensures ok <==> (forall o <- cacheCoins :: cacheCoins[o].Legal()) && cachedCoinsUsage == Usage(cacheCoins)
    {
      var recomputed := 0;
      var rest := cacheCoins;
      while rest != map[]
        invariant rest.Keys <= cacheCoins.Keys && forall o <- rest :: rest[o] == cacheCoins[o]
        invariant forall o <- cacheCoins :: o !in rest ==> cacheCoins[o].Legal()
        invariant recomputed + Usage(rest) == Usage(cacheCoins)
        decreases |rest|
      {
        var o :| o in rest;
        if !rest[o].Legal() {
          return false;
        }
        UsageWithout(rest, o);
        recomputed := recomputed + rest[o].coin.DynamicMemoryUsage();
        rest := rest - {o};
      }
      ok := recomputed == cachedCoinsUsage;
    }
  }
}
