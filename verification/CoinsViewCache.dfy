/** The cache objects themselves, updated in place. */
module CoinsViewCache {
  // A CoinsViewCache updates its own map, flags and memory counter and, on a miss, lets the view
  // below it do the same. Every method is tied to the value-level operation of module Coins through
  // the abstraction function Stack().

  import opened Coins

  lemma VisitOne(m: Cache, left: Cache, o: Outpoint)
    requires o in left && o in m && left == m - (m.Keys - left.Keys)
    ensures m - (left - {o}).Keys == (m - left.Keys)[o := m[o]]
    ensures (left - {o}).Keys == left.Keys - {o} && left - {o} == m - (m.Keys - (left - {o}).Keys)
    ensures left[o] == m[o]
  {
  }

  lemma VisitMore(p: Cache, c: Cache, left: Cache, o: Outpoint)
    requires Visited(p, c, left) && o in left
    ensures o in c && left[o] == c[o] && o !in c - left.Keys
    ensures Misapplied(p, map[o := left[o]], o) <==> Misapplied(p, c, o)
    ensures Misapplied(p, c, o) ==> StopsAt(p, c, left)
    ensures !Misapplied(p, c, o) ==> Visited(p, c, left - {o})
    ensures c - (left - {o}).Keys == (c - left.Keys)[o := left[o]]
    ensures (left - {o}).Keys < left.Keys
  {
    VisitOne(c, left, o);
  }

  // Writing one more child entry, in any order, is one more step of the whole write.
  lemma WrittenStep(coins: CoinMap, done: Cache, o: Outpoint, e: Entry)
    requires o !in done
    ensures WrittenCoins(coins, done[o := e])
         == if !e.isDirty then WrittenCoins(coins, done)
            else if e.coin.IsSpent() then WrittenCoins(coins, done) - {o}
            else WrittenCoins(coins, done)[o := e.coin]
  {
  }

  lemma MergedStep(p: Cache, done: Cache, o: Outpoint, e: Entry)
    requires o !in done
    ensures Merged(p, done[o := e])
         == match MergedEntry(p, map[o := e], o)
            case Gone => Merged(p, done) - {o}
            case Kept(k) => Merged(p, done)[o := k]
    ensures MergedEntry(p, done, o) == if o in p then Kept(p[o]) else Gone
    ensures o in Merged(p, done) <==> o in p
    ensures o in p ==> Merged(p, done)[o] == p[o]
  {
  }

  // The database at the bottom of every stack.
  class CoinsViewDB {
    var coins: CoinMap
    var best: nat

    constructor (coins: CoinMap, best: nat)
      ensures this.coins == coins && this.best == best
    {
      this.coins, this.best := coins, best;
    }

    method GetCoin(o: Outpoint) returns (found: bool, coin: Coin)
      ensures found <==> o in coins
      ensures found ==> coin == coins[o]
    {
      found := o in coins;
      coin := if found then coins[o] else COIN_EMPTY;
    }

    // Visited entries are erased from the caller's map.
    method BatchWrite(mapCoins: Cache, hashBlock: nat) returns (left: Cache)
      modifies this
      ensures coins == WrittenCoins(old(coins), mapCoins) && left == map[]
      ensures best == if hashBlock == 0 then old(best) else hashBlock
    {
      left := mapCoins;
      while left != map[]
        invariant left.Keys <= mapCoins.Keys && left == mapCoins - (mapCoins.Keys - left.Keys)
        invariant coins == WrittenCoins(old(coins), mapCoins - left.Keys)
        invariant best == old(best)
        decreases |left|
      {
        var o :| o in left;
        WrittenStep(old(coins), mapCoins - left.Keys, o, mapCoins[o]);
        VisitOne(mapCoins, left, o);
        if left[o].isDirty {
          coins := if left[o].coin.IsSpent() then coins - {o} else coins[o := left[o].coin];
        }
        left := left - {o};
      }
      assert mapCoins - {} == mapCoins;
      if hashBlock != 0 {
        best := hashBlock;
      }
    }
  }

  class CoinsViewCache {
    // The view below: another cache, or the database when there is none.
    const base: CoinsViewCache?
    const db: CoinsViewDB
    // All objects of the stack from here down.
    ghost const Repr: set<object>

    var hashBlock: nat
    var cacheCoins: Cache
    var cachedCoinsUsage: int

    // The shape of the stack never changes: it is fixed at construction.
    ghost predicate Linked()
      decreases Repr
    {
      && this in Repr && db in Repr
      && (base == null ==> Repr == {this, db})
      && (base != null ==>
            && base in Repr && base.Repr < Repr && this !in base.Repr && base.db == db
            && base.Linked())
    }

    ghost function Stack(): (s: Stack)
      requires Linked()
      reads Repr
      ensures s.Layer?
      decreases Repr
    {
      Layer(cacheCoins, cachedCoinsUsage, hashBlock, Base())
    }

    ghost function Base(): (r: Stack)
      requires Linked()
      reads Repr
      decreases Repr, 0
    {
      if base == null then Disk(db.coins, db.best) else base.Stack()
    }

    constructor OnDisk(db: CoinsViewDB)
      ensures Linked() && Repr == {this, db} && this.db == db
      ensures Stack() == Layer(map[], 0, 0, Disk(db.coins, db.best))
    {
      this.base, this.db, this.Repr := null, db, {this, db};
      hashBlock, cacheCoins, cachedCoinsUsage := 0, map[], 0;
    }

    constructor OnCache(base: CoinsViewCache)
      requires base.Linked()
      ensures Linked() && Repr == {this} + base.Repr && this.base == base
      ensures Stack() == Layer(map[], 0, 0, base.Stack())
    {
      this.base, this.db, this.Repr := base, base.db, {this} + base.Repr;
      hashBlock, cacheCoins, cachedCoinsUsage := 0, map[], 0;
    }

    method FetchCoin(o: Outpoint) returns (found: bool)
      requires Linked()
      modifies Repr
      ensures Stack() == Fetch(old(Stack()), o)
      ensures found <==> o in cacheCoins
      decreases Repr, 0
    {
      if o in cacheCoins {
        return true;
      }
      var tmp;
      if base == null {
        found, tmp := db.GetCoin(o);
      } else {
        found, tmp := base.GetCoin(o);
      }
      if !found {
        return;
      }
      cacheCoins := cacheCoins[o := Entry(tmp, false, false)];
      if cacheCoins[o].coin.IsSpent() {
        cacheCoins := cacheCoins[o := cacheCoins[o].(isFresh := true)];
      }
      cachedCoinsUsage := cachedCoinsUsage + cacheCoins[o].coin.DynamicMemoryUsage();
    }

    method GetCoin(o: Outpoint) returns (found: bool, coin: Coin)
      requires Linked()
      modifies Repr
      ensures Stack() == Fetch(old(Stack()), o)
      ensures found <==> o in old(View(Stack()))
      ensures found ==> coin == old(View(Stack()))[o]
      decreases Repr, 1
    {
      var it := FetchCoin(o);
      if it {
        coin := cacheCoins[o].coin;
        return !coin.IsSpent(), coin;
      }
      return false, COIN_EMPTY;
    }

    method HaveCoin(o: Outpoint) returns (have: bool)
      requires Linked()
      modifies Repr
      ensures Stack() == Fetch(old(Stack()), o)
      ensures have <==> o in old(View(Stack()))
    {
      var it := FetchCoin(o);
      have := it && !cacheCoins[o].coin.IsSpent();
    }

    // Returns the cached coin, or the empty one when there is none.
    method AccessCoin(o: Outpoint) returns (coin: Coin)
      requires Linked()
      modifies Repr
      ensures Stack() == Fetch(old(Stack()), o)
      ensures coin.IsSpent() <==> o !in old(View(Stack()))
      ensures o in old(View(Stack())) ==> coin == old(View(Stack()))[o]
    {
      var it := FetchCoin(o);
      coin := if it then cacheCoins[o].coin else COIN_EMPTY;
    }

    method AddCoin(o: Outpoint, coin: Coin, possibleOverwrite: bool) returns (thrown: bool)
      requires Linked() && !coin.IsSpent()
      modifies this`cacheCoins, this`cachedCoinsUsage
      ensures thrown <==> AddThrows(old(Stack()), o, coin, possibleOverwrite)
      ensures !thrown ==> Stack() == Add(old(Stack()), o, coin, possibleOverwrite)
      ensures thrown ==>
        cacheCoins == old(cacheCoins) && cachedCoinsUsage == old(cachedCoinsUsage - UsageAt(cacheCoins, o))
    {
      if coin.IsUnspendable() {
        return false;
      }
      var inserted := o !in cacheCoins;
      if inserted {
        cacheCoins := cacheCoins[o := Entry(COIN_EMPTY, false, false)];
      }
      var markFresh := false;
      if !inserted {
        cachedCoinsUsage := cachedCoinsUsage - cacheCoins[o].coin.DynamicMemoryUsage();
      }
      if !possibleOverwrite {
        if !cacheCoins[o].coin.IsSpent() {
          return true;
        }
        markFresh := !cacheCoins[o].isDirty;
      }
      cacheCoins := cacheCoins[o := Entry(coin, true, cacheCoins[o].isFresh || markFresh)];
      cachedCoinsUsage := cachedCoinsUsage + cacheCoins[o].coin.DynamicMemoryUsage();
      return false;
    }

    // Returns true also for a cached entry that is already spent; moveout is then that empty coin.
    method SpendCoin(o: Outpoint) returns (spent: bool, moveout: Coin)
      requires Linked()
      modifies Repr
      ensures Stack() == Spend(old(Stack()), o)
      ensures spent <==> o in old(cacheCoins) || o in old(View(Stack()).Keys + View(Base()).Keys)
      ensures o in old(View(Stack())) ==> spent && moveout == old(View(Stack()))[o]
      ensures o !in old(View(Stack())) ==> moveout.IsSpent()
    {
      var it := FetchCoin(o);
      if !it {
        return false, COIN_EMPTY;
      }
      cachedCoinsUsage := cachedCoinsUsage - cacheCoins[o].coin.DynamicMemoryUsage();
      moveout := cacheCoins[o].coin;
      if cacheCoins[o].isFresh {
        cacheCoins := cacheCoins - {o};
      } else {
        cacheCoins := cacheCoins[o := cacheCoins[o].(isDirty := true)];
        cacheCoins := cacheCoins[o := cacheCoins[o].(coin := COIN_EMPTY)];
      }
      return true, moveout;
    }

    method Uncache(o: Outpoint)
      requires Linked()
      modifies this`cacheCoins, this`cachedCoinsUsage
      ensures Stack() == Coins.Uncache(old(Stack()), o)
    {
      if o in cacheCoins && !cacheCoins[o].isDirty && !cacheCoins[o].isFresh {
        cachedCoinsUsage := cachedCoinsUsage - cacheCoins[o].coin.DynamicMemoryUsage();
        cacheCoins := cacheCoins - {o};
      }
    }

    // One round of BatchWrite's loop: the child's entry e for outpoint o.
    method WriteEntry(o: Outpoint, e: Entry) returns (thrown: bool)
      modifies this`cacheCoins, this`cachedCoinsUsage
      ensures thrown <==> Misapplied(old(cacheCoins), map[o := e], o)
      ensures !thrown ==> cacheCoins == match MergedEntry(old(cacheCoins), map[o := e], o)
                          case Gone => old(cacheCoins) - {o}
                          case Kept(k) => old(cacheCoins)[o := k]
      ensures !thrown ==>
        cachedCoinsUsage - old(cachedCoinsUsage) == Usage(cacheCoins) - Usage(old(cacheCoins))
      ensures thrown ==> cacheCoins == old(cacheCoins) && cachedCoinsUsage == old(cachedCoinsUsage)
    {
      ghost var us := cacheCoins;
      if e.isDirty {
        if o !in cacheCoins {
          // A coin that was created and spent above this layer need never be seen here.
          if !(e.isFresh && e.coin.IsSpent()) {
            cacheCoins := cacheCoins[o := Entry(e.coin, true, e.isFresh)];
            cachedCoinsUsage := cachedCoinsUsage + e.coin.DynamicMemoryUsage();
          }
        } else {
          if e.isFresh && !cacheCoins[o].coin.IsSpent() {
            return true;
          }
          cachedCoinsUsage := cachedCoinsUsage - cacheCoins[o].coin.DynamicMemoryUsage();
          if cacheCoins[o].isFresh && e.coin.IsSpent() {
            cacheCoins := cacheCoins - {o};
          } else {
            // The child's FRESH flag must not be copied here.
            cacheCoins := cacheCoins[o := Entry(e.coin, true, cacheCoins[o].isFresh)];
            cachedCoinsUsage := cachedCoinsUsage + e.coin.DynamicMemoryUsage();
          }
        }
      }
      UsageUpdate(us, o, if o in cacheCoins then cacheCoins[o] else e);
      return false;
    }

    // One round, seen from the cache p that the write began with and the entries done before.
    method WriteNext(o: Outpoint, e: Entry, ghost p: Cache, ghost done: Cache) returns (thrown: bool)
      requires o !in done && cacheCoins == Merged(p, done)
      modifies this`cacheCoins, this`cachedCoinsUsage
      ensures thrown <==> Misapplied(p, map[o := e], o)
      ensures cacheCoins == Merged(p, if thrown then done else done[o := e])
      ensures cachedCoinsUsage - old(cachedCoinsUsage) == Usage(cacheCoins) - Usage(old(cacheCoins))
    {
      MergedStep(p, done, o, e);
      thrown := WriteEntry(o, e);
    }

    // The child's entries are visited in an arbitrary order, and erased from its map when they are done.
    method WriteAll(mapCoins: Cache) returns (thrown: bool, left: Cache)
      modifies this`cacheCoins, this`cachedCoinsUsage
      ensures if thrown then StopsAt(old(cacheCoins), mapCoins, left) else left == map[]
      ensures !thrown ==> forall o :: o in mapCoins ==> !Misapplied(old(cacheCoins), mapCoins, o)
      ensures cacheCoins == Merged(old(cacheCoins), mapCoins - left.Keys)
      ensures cachedCoinsUsage - old(cachedCoinsUsage) == Usage(cacheCoins) - Usage(old(cacheCoins))
    {
      left := mapCoins;
      assert Merged(cacheCoins, mapCoins - left.Keys) == cacheCoins;
      while left != map[]
        invariant Visited(old(cacheCoins), mapCoins, left)
        invariant cacheCoins == Merged(old(cacheCoins), mapCoins - left.Keys)
        invariant cachedCoinsUsage - old(cachedCoinsUsage) == Usage(cacheCoins) - Usage(old(cacheCoins))
        decreases left.Keys
      {
        var o :| o in left;
        VisitMore(old(cacheCoins), mapCoins, left, o);
        thrown := WriteNext(o, left[o], old(cacheCoins), mapCoins - left.Keys);
        if thrown {
          return;
        }
        left := left - {o};
      }
      thrown := false;
    }

    // The call throws exactly when some entry is misapplied, and leaves the entries that were not
    // visited then. Otherwise its effect does not depend on the order.
    method BatchWrite(mapCoins: Cache, hashBlockIn: nat) returns (thrown: bool, left: Cache)
      requires Linked()
      modifies this`cacheCoins, this`cachedCoinsUsage, this`hashBlock
      ensures thrown <==> exists o :: o in mapCoins && Misapplied(old(cacheCoins), mapCoins, o)
      ensures !thrown ==> Stack() == Coins.BatchWrite(old(Stack()), mapCoins, hashBlockIn) && left == map[]
      ensures thrown ==> StopsAt(old(cacheCoins), mapCoins, left)
      ensures thrown ==> Stack() == BatchStopped(old(Stack()), mapCoins, left)
    {
      thrown, left := WriteAll(mapCoins);
      if !thrown {
        assert mapCoins - left.Keys == mapCoins;
        hashBlock := hashBlockIn;
      }
    }

    method Flush() returns (thrown: bool)
      requires Linked()
      modifies Repr
      ensures thrown <==> FlushThrows(old(Stack()))
      ensures !thrown ==> Stack() == Coins.Flush(old(Stack()))
      ensures thrown ==> StopsAt(old(Stack()).base.cache, old(cacheCoins), cacheCoins)
      ensures thrown ==> Stack() == FlushStopped(old(Stack()), cacheCoins)
    {
      thrown := false;
      assert Stack().base == Base();
      if base == null {
        cacheCoins := db.BatchWrite(cacheCoins, hashBlock);
      } else {
        assert Base() == base.Stack() && Base().cache == base.cacheCoins;
        var left;
        thrown, left := base.BatchWrite(cacheCoins, hashBlock);
        cacheCoins := left;
        if thrown {
          return;
        }
      }
      cacheCoins, cachedCoinsUsage := map[], 0;
    }

    method GetBestBlock() returns (best: nat)
      requires Linked()
      modifies Repr
      ensures best == BestBlock(old(Stack()))
      ensures Stack() == LearnBest(old(Stack()))
      decreases Repr
    {
      if hashBlock == 0 {
        if base == null {
          hashBlock := db.best;
        } else {
          hashBlock := base.GetBestBlock();
        }
      }
      best := hashBlock;
    }

    method SetBestBlock(hashBlockIn: nat)
      requires Linked()
      modifies this`hashBlock
      ensures Stack() == old(Stack()).(best := hashBlockIn)
    {
      hashBlock := hashBlockIn;
    }
  }
}
