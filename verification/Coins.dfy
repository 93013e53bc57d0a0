/** The unspent-output cache stack, as values. */
module Coins {
  // A stack is a disk map under any number of write-back layers. Each layer holds entries with two
  // flags; a FRESH entry may be dropped instead of flushed once it is spent. The functions below
  // give each operation's exact effect on the layers; the lemmas show that behind the flags every
  // stack is a stack of plain maps.

  datatype Outpoint = Outpoint(hash: nat, n: nat)

  const OP_RETURN: bv8 := 0x6a
  const MAX_SCRIPT_SIZE := 10000

  datatype Coin = Coin(value: int, script: seq<bv8>, coinBase: bool, height: nat) {
    predicate IsSpent() {
      value == -1
    }

    predicate IsUnspendable() {
      (|script| > 0 && script[0] == OP_RETURN) || |script| > MAX_SCRIPT_SIZE
    }

    // Heap bytes of the script: none up to the 28 bytes stored in place.
    function DynamicMemoryUsage(): (r: nat) {
      if |script| <= 28 then 0 else (|script| + 31) / 16 * 16
    }
  }

  // What Coin::Clear leaves behind.
  const COIN_EMPTY := Coin(-1, [], false, 0)

  datatype Entry = Entry(coin: Coin, isDirty: bool, isFresh: bool)

  type Cache = map<Outpoint, Entry>

  type CoinMap = map<Outpoint, Coin>

  datatype Stack =
    | Disk(coins: CoinMap, best: nat)
    | Layer(cache: Cache, usage: int, best: nat, base: Stack)

  /* ---- What a stack means ---- */

  function CoinAt(c: Cache, parent: CoinMap, o: Outpoint): (r: Coin)
    requires o in c || o in parent
  {
    if o in c then c[o].coin else parent[o]
  }

  // A cache shows its own entries before its parent's, and never a spent coin.
  function Overlay(c: Cache, parent: CoinMap): (r: CoinMap) {
    map o | o in c.Keys + parent.Keys && !CoinAt(c, parent, o).IsSpent() :: CoinAt(c, parent, o)
  }

  function View(s: Stack): (r: CoinMap) {
    match s
    case Disk(coins, _) => coins
    case Layer(c, _, _, b) => Overlay(c, View(b))
  }

  // The block hash a view reports; 0 is the null hash, which defers to the base.
  function BestBlock(s: Stack): (r: nat) {
    match s
    case Disk(_, best) => best
    case Layer(_, _, best, b) => if best == 0 then BestBlock(b) else best
  }

  // A layer without flags: the coins it shows, and the best block hash of its own.
  datatype Plain = Plain(coins: CoinMap, best: nat)

  // All layers that way, disk first.
  function Views(s: Stack): (r: seq<Plain>) {
    match s
    case Disk(coins, best) => [Plain(coins, best)]
    case Layer(_, _, best, b) => Views(b) + [Plain(View(s), best)]
  }

  // The block hash that a stack of plain layers reports.
  function PlainBest(v: seq<Plain>): (r: nat)
    requires |v| >= 1
  {
    var n := |v| - 1;
    if n == 0 || v[n].best != 0 then v[n].best else PlainBest(v[..n])
  }

  // Heap bytes of all cached coins.
  ghost function Usage(c: Cache): (r: nat) {
    if c == map[] then 0
    else
      var o :| o in c;
      c[o].coin.DynamicMemoryUsage() + Usage(c - {o})
  }

  // What DIRTY and FRESH promise about the parent.
  ghost predicate EntryOk(e: Entry, o: Outpoint, parent: CoinMap) {
    && (!e.isDirty ==> if e.coin.IsSpent() then o !in parent else o in parent && parent[o] == e.coin)
    && (e.isFresh ==> o !in parent)
  }

  ghost predicate FlagsOk(c: Cache, parent: CoinMap) {
    forall o :: o in c ==> EntryOk(c[o], o, parent) && (c[o].coin.IsSpent() ==> c[o].coin == COIN_EMPTY)
  }

  // The disk holds unspent coins only; every layer's flags and memory counter are right.
  ghost predicate Inv(s: Stack) {
    match s
    case Disk(coins, _) => forall o :: o in coins ==> !coins[o].IsSpent()
    case Layer(c, usage, _, b) => Inv(b) && FlagsOk(c, View(b)) && usage == Usage(c)
  }

  /* ---- The operations ---- */

  function UsageAt(c: Cache, o: Outpoint): (r: nat) {
    if o in c then c[o].coin.DynamicMemoryUsage() else 0
  }

  // FetchCoin: a miss loads the coin into every layer on the way up.
  function Fetch(s: Stack, o: Outpoint): (r: Stack) {
    match s
    case Disk(_, _) => s
    case Layer(c, usage, best, b) =>
      if o in c then s
      else if o in View(b) then
        var coin := View(b)[o];
        Layer(c[o := Entry(coin, false, coin.IsSpent())], usage + coin.DynamicMemoryUsage(), best, Fetch(b, o))
      else
        s.(base := Fetch(b, o))
  }

  // GetBestBlock: every layer that does not know the hash yet learns it from its base.
  function LearnBest(s: Stack): (r: Stack) {
    match s
    case Disk(_, _) => s
    case Layer(c, usage, best, b) =>
      if best == 0 then Layer(c, usage, BestBlock(b), LearnBest(b)) else s
  }

  function EntryOrNew(c: Cache, o: Outpoint): (r: Entry) {
    if o in c then c[o] else Entry(COIN_EMPTY, false, false)
  }

  // AddCoin throws on a non-overwriting add over a cached unspent coin.
  predicate AddThrows(s: Stack, o: Outpoint, coin: Coin, overwrite: bool)
    requires s.Layer?
  {
    !coin.IsUnspendable() && !overwrite && !EntryOrNew(s.cache, o).coin.IsSpent()
  }

  function Add(s: Stack, o: Outpoint, coin: Coin, overwrite: bool): (r: Stack)
    requires s.Layer?
  {
    if coin.IsUnspendable() then s
    else
      var e := EntryOrNew(s.cache, o);
      s.(cache := s.cache[o := Entry(coin, true, e.isFresh || (!overwrite && !e.isDirty))],
         usage := s.usage - UsageAt(s.cache, o) + coin.DynamicMemoryUsage())
  }

  function Spend(s: Stack, o: Outpoint): (r: Stack)
    requires s.Layer?
  {
    var f := Fetch(s, o);
    if o !in f.cache then f
    else
      var kept := if f.cache[o].isFresh then f.cache - {o} else f.cache[o := Entry(COIN_EMPTY, true, false)];
      f.(cache := kept, usage := f.usage - UsageAt(f.cache, o))
  }

  function Uncache(s: Stack, o: Outpoint): (r: Stack)
    requires s.Layer?
  {
    if o in s.cache && !s.cache[o].isDirty && !s.cache[o].isFresh then
      s.(cache := s.cache - {o}, usage := s.usage - UsageAt(s.cache, o))
    else s
  }

  // The entry of one outpoint after a child cache c is written into a parent cache p.
  datatype MaybeEntry = Gone | Kept(entry: Entry)

  function MergedEntry(p: Cache, c: Cache, o: Outpoint): (r: MaybeEntry) {
    if o in c && c[o].isDirty then
      if o !in p then
        if c[o].isFresh && c[o].coin.IsSpent() then Gone else Kept(Entry(c[o].coin, true, c[o].isFresh))
      else
        if p[o].isFresh && c[o].coin.IsSpent() then Gone else Kept(Entry(c[o].coin, true, p[o].isFresh))
    else if o in p then Kept(p[o]) else Gone
  }

  function Merged(p: Cache, c: Cache): (r: Cache) {
    map o | o in p.Keys + c.Keys && MergedEntry(p, c, o).Kept? :: MergedEntry(p, c, o).entry
  }

  // An entry on which BatchWrite throws "FRESH flag misapplied".
  predicate Misapplied(p: Cache, c: Cache, o: Outpoint) {
    o in c && c[o].isDirty && c[o].isFresh && o in p && !p[o].coin.IsSpent()
  }

  // BatchWrite of c into p has visited, and erased, all entries of c but those in left.
  ghost predicate Visited(p: Cache, c: Cache, left: Cache) {
    && left.Keys <= c.Keys && left == c - (c.Keys - left.Keys)
    && forall o :: o in c && o !in left ==> !Misapplied(p, c, o)
  }

  // What is left when it throws.
  ghost predicate StopsAt(p: Cache, c: Cache, left: Cache) {
    Visited(p, c, left) && exists o :: o in left && Misapplied(p, c, o)
  }

  function WrittenCoins(coins: CoinMap, c: Cache): (r: CoinMap) {
    map o | o in coins.Keys + c.Keys && (if o in c && c[o].isDirty then !c[o].coin.IsSpent() else o in coins) ::
      if o in c && c[o].isDirty then c[o].coin else coins[o]
  }

  // BatchWrite of a child cache into the view below it.
  ghost function BatchWrite(s: Stack, c: Cache, best: nat): (r: Stack) {
    match s
    case Disk(coins, b) => Disk(WrittenCoins(coins, c), if best == 0 then b else best)
    case Layer(p, usage, _, b) => Layer(Merged(p, c), usage + Usage(Merged(p, c)) - Usage(p), best, b)
  }

  ghost function Flush(s: Stack): (r: Stack)
    requires s.Layer?
  {
    Layer(map[], 0, s.best, BatchWrite(s.base, s.cache, s.best))
  }

  // A cache after the write of a child cache has thrown when the entries in left were not visited yet.
  ghost function BatchStopped(s: Stack, c: Cache, left: Cache): (r: Stack)
    requires s.Layer?
  {
    var merged := Merged(s.cache, c - left.Keys);
    s.(cache := merged, usage := s.usage + Usage(merged) - Usage(s.cache))
  }

  // The flushing child has lost the entries that its parent took over, and counts them still.
  ghost function FlushStopped(s: Stack, left: Cache): (r: Stack)
    requires s.Layer? && s.base.Layer?
  {
    s.(cache := left, base := BatchStopped(s.base, s.cache, left))
  }

  predicate FlushThrows(s: Stack)
    requires s.Layer?
  {
    s.base.Layer? && exists o :: o in s.cache && Misapplied(s.base.cache, s.cache, o)
  }

  /* ---- Usage is a sum: independent of the order of summation ---- */

  lemma {:induction false} UsageSplit(c: Cache, o: Outpoint)
    requires o in c
    ensures Usage(c) == c[o].coin.DynamicMemoryUsage() + Usage(c - {o})
    decreases c
  {
    var p :| p in c && Usage(c) == c[p].coin.DynamicMemoryUsage() + Usage(c - {p});
    if p != o {
      UsageSplit(c - {p}, o);
      UsageSplit(c - {o}, p);
      assert c - {p} - {o} == c - {o} - {p};
    }
  }

  lemma UsageUpdate(c: Cache, o: Outpoint, e: Entry)
    ensures Usage(c[o := e]) == Usage(c) - UsageAt(c, o) + e.coin.DynamicMemoryUsage()
    ensures Usage(c - {o}) == Usage(c) - UsageAt(c, o)
  {
    var c' := c[o := e];
    UsageSplit(c', o);
    if o in c {
      UsageSplit(c, o);
    }
    assert c' - {o} == c - {o};
    if o !in c {
      assert c - {o} == c;
    }
  }

  /* ---- The view changes at one outpoint at a time ---- */

  lemma OverlayUpdate(c: Cache, parent: CoinMap, o: Outpoint, e: Entry)
    ensures Overlay(c[o := e], parent)
         == if e.coin.IsSpent() then Overlay(c, parent) - {o} else Overlay(c, parent)[o := e.coin]
  {
  }

  lemma OverlayDrop(c: Cache, parent: CoinMap, o: Outpoint)
    requires o in c && if c[o].coin.IsSpent() then o !in parent else o in parent && parent[o] == c[o].coin
    ensures Overlay(c - {o}, parent) == Overlay(c, parent)
  {
  }

  /* ---- Each operation keeps the invariant and has a simple effect on the view ---- */

  lemma {:induction false} ViewIsUnspent(s: Stack)
    requires Inv(s)
    ensures forall o :: o in View(s) ==> !View(s)[o].IsSpent()
  {
    if s.Layer? {
      ViewIsUnspent(s.base);
    }
  }

  lemma {:induction false} FetchIsRead(s: Stack, o: Outpoint)
    requires Inv(s)
    ensures Inv(Fetch(s, o)) && Views(Fetch(s, o)) == Views(s) && View(Fetch(s, o)) == View(s)
    ensures BestBlock(Fetch(s, o)) == BestBlock(s)
    ensures s.Layer? ==> (o in Fetch(s, o).cache <==> o in s.cache || o in View(s.base))
  {
    match s
    case Disk(_, _) =>
    case Layer(c, usage, best, b) =>
      FetchIsRead(b, o);
      if o !in c && o in View(b) {
        ViewIsUnspent(b);
        var e := Entry(View(b)[o], false, false);
        UsageUpdate(c, o, e);
        OverlayUpdate(c, View(b), o, e);
        assert Overlay(c, View(b))[o := e.coin] == Overlay(c, View(b));
      }
  }

  lemma {:induction false} LearnBestIsRead(s: Stack)
    requires Inv(s)
    ensures Inv(LearnBest(s)) && View(LearnBest(s)) == View(s) && BestBlock(LearnBest(s)) == BestBlock(s)
    ensures Views(LearnBest(s)) == Learned(Views(s)) && BestBlock(s) == PlainBest(Views(s))
  {
    if s.Layer? {
      LearnBestIsRead(s.base);
      ViewsShape(s);
    }
  }

  lemma AddIsUpdate(s: Stack, o: Outpoint, coin: Coin, overwrite: bool)
    requires s.Layer? && Inv(s) && !coin.IsSpent()
    requires overwrite || o !in View(s)
    ensures !AddThrows(s, o, coin, overwrite)
    ensures Inv(Add(s, o, coin, overwrite))
    ensures View(Add(s, o, coin, overwrite)) == if coin.IsUnspendable() then View(s) else View(s)[o := coin]
    ensures BestBlock(Add(s, o, coin, overwrite)) == BestBlock(s)
  {
    if !coin.IsUnspendable() {
      var e := Add(s, o, coin, overwrite).cache[o];
      UsageUpdate(s.cache, o, e);
      OverlayUpdate(s.cache, View(s.base), o, e);
    }
  }

  // For a non-overwriting add the caller's promise is exactly what is needed: over an unspent
  // coin the add either throws or mislabels the entry FRESH.
  lemma AddNeedsAbsence(s: Stack, o: Outpoint, coin: Coin)
    requires s.Layer? && Inv(s) && !coin.IsSpent() && !coin.IsUnspendable()
    ensures (!AddThrows(s, o, coin, false) && Inv(Add(s, o, coin, false))) <==> o !in View(s)
  {
    if o !in View(s) {
      AddIsUpdate(s, o, coin, false);
    } else if o !in s.cache {
      var s' := Add(s, o, coin, false);
      assert o in s'.cache && s'.cache[o].isFresh && o in View(s.base);
    }
  }

  // An empty cache over a disk that holds one coin.
  function OverOneCoin(o: Outpoint, coin: Coin): (r: Stack) {
    Layer(map[], 0, 1, Disk(map[o := coin], 1))
  }

  // Adding that coin again does not throw, and marks it FRESH. Spending it then brings the disk's back.
  lemma AddHidesCoin(o: Outpoint, coin: Coin)
    requires !coin.IsSpent() && !coin.IsUnspendable()
    ensures var s := OverOneCoin(o, coin); var t := Add(s, o, coin, false);
      Inv(s) && !AddThrows(s, o, coin, false) && !Inv(t) && o in View(Spend(t, o))
  {
    var s := OverOneCoin(o, coin);
    var t := Add(s, o, coin, false);
    assert o in View(s);
    AddNeedsAbsence(s, o, coin);
    assert t.cache == map[o := Entry(coin, true, true)];
    assert Spend(t, o).cache == map[];
  }

  // A flush throws exactly if it would write a coin marked as absent below over one that the layer below
  // has cached and shows.
  lemma FlushThrowsExactly(s: Stack)
    requires s.Layer? && s.base.Layer?
    ensures FlushThrows(s) <==>
      exists o :: o in s.cache && s.cache[o].isDirty && s.cache[o].isFresh && o in s.base.cache && o in View(s.base)
  {
    if FlushThrows(s) {
      var o :| o in s.cache && Misapplied(s.base.cache, s.cache, o);
      assert o in View(s.base);
    }
    if o :| o in s.cache && s.cache[o].isDirty && s.cache[o].isFresh && o in s.base.cache && o in View(s.base) {
      assert Misapplied(s.base.cache, s.cache, o);
    }
  }

  // With a layer between that has the coin cached, adding it again is noticed when it is flushed.
  lemma AddIsNoticedLate(o: Outpoint, coin: Coin)
    requires !coin.IsSpent() && !coin.IsUnspendable()
    ensures var s := Layer(map[], 0, 1, Fetch(OverOneCoin(o, coin), o)); var t := Add(s, o, coin, false);
      Inv(s) && !AddThrows(s, o, coin, false) && FlushThrows(t)
  {
    var s := Layer(map[], 0, 1, Fetch(OverOneCoin(o, coin), o));
    var t := Add(s, o, coin, false);
    FetchIsRead(OverOneCoin(o, coin), o);
    assert o in t.cache && Misapplied(t.base.cache, t.cache, o);
  }

  // Spending that coin leaves an entry that SpendCoin finds again, though the view has no coin left.
  lemma SpendLeavesEntry(o: Outpoint, coin: Coin)
    requires !coin.IsSpent()
    ensures var t := Spend(OverOneCoin(o, coin), o);
      Inv(t) && o in t.cache && o !in View(t) && Spend(t, o).cache == t.cache
  {
    SpendIsRemoval(OverOneCoin(o, coin), o);
  }

  lemma SpendIsRemoval(s: Stack, o: Outpoint)
    requires s.Layer? && Inv(s)
    ensures Inv(Spend(s, o))
    ensures View(Spend(s, o)) == View(s) - {o}
    ensures BestBlock(Spend(s, o)) == BestBlock(s)
  {
    FetchIsRead(s, o);
    var f := Fetch(s, o);
    if o in f.cache {
      SpendCached(f, o);
    }
  }

  lemma SpendCached(f: Stack, o: Outpoint)
    requires f.Layer? && Inv(f) && o in f.cache
    ensures var e := Entry(COIN_EMPTY, true, false);
      var r := f.(cache := if f.cache[o].isFresh then f.cache - {o} else f.cache[o := e],
                  usage := f.usage - UsageAt(f.cache, o));
      Inv(r) && View(r) == View(f) - {o} && BestBlock(r) == BestBlock(f)
  {
    var e := Entry(COIN_EMPTY, true, false);
    UsageUpdate(f.cache, o, e);
    OverlayUpdate(f.cache, View(f.base), o, e);
    assert f.cache[o := e] - {o} == f.cache - {o};
    if f.cache[o].isFresh {
      OverlayDrop(f.cache[o := e], View(f.base), o);
    }
  }

  lemma UncacheIsInvisible(s: Stack, o: Outpoint)
    requires s.Layer? && Inv(s)
    ensures Inv(Uncache(s, o))
    ensures View(Uncache(s, o)) == View(s) && BestBlock(Uncache(s, o)) == BestBlock(s)
    ensures o in Uncache(s, o).cache <==> o in s.cache && (s.cache[o].isDirty || s.cache[o].isFresh)
  {
    if Uncache(s, o) != s {
      UsageUpdate(s.cache, o, s.cache[o]);
      OverlayDrop(s.cache, View(s.base), o);
    }
  }

  lemma FlushNeverThrows(s: Stack)
    requires s.Layer? && Inv(s)
    ensures !FlushThrows(s)
  {
    if s.base.Layer? {
      forall o | o in s.cache
        ensures !Misapplied(s.base.cache, s.cache, o)
      {
        assert EntryOk(s.cache[o], o, View(s.base));
      }
    }
  }

  lemma MergeKeepsFlags(p: Cache, c: Cache, parent: CoinMap)
    requires FlagsOk(p, parent) && FlagsOk(c, Overlay(p, parent))
    requires forall o :: o in parent ==> !parent[o].IsSpent()
    ensures FlagsOk(Merged(p, c), parent)
    ensures Overlay(Merged(p, c), parent) == Overlay(c, Overlay(p, parent))
  {
    var v, m := Overlay(p, parent), Merged(p, c);
    forall o | o in m
      ensures EntryOk(m[o], o, parent) && (m[o].coin.IsSpent() ==> m[o].coin == COIN_EMPTY)
    {
      if o in c {
        assert EntryOk(c[o], o, v);
      }
      if o in p {
        assert EntryOk(p[o], o, parent);
      }
    }
    var before, after := Overlay(c, v), Overlay(m, parent);
    forall o
      ensures o in before <==> o in after
      ensures o in before && o in after ==> before[o] == after[o]
    {
      if o in c {
        assert EntryOk(c[o], o, v);
      }
      if o in p {
        assert EntryOk(p[o], o, parent);
      }
    }
  }

  // Flushing leaves every view as it was, except that the layer below now sees what the top saw.
  lemma FlushPreservesViews(s: Stack)
    requires s.Layer? && Inv(s)
    ensures Inv(Flush(s))
    ensures View(Flush(s).base) == View(s) && View(Flush(s)) == View(s)
    ensures Flush(s).cache == map[] && Flush(s).best == s.best
  {
    if s.base.Disk? {
      FlushToDisk(s);
    } else {
      FlushToCache(s);
    }
    assert Overlay(map[], View(s)) == View(s);
  }

  lemma FlushToDisk(s: Stack)
    requires s.Layer? && s.base.Disk? && Inv(s)
    ensures Inv(Flush(s).base) && View(Flush(s).base) == View(s)
  {
    assert WrittenCoins(s.base.coins, s.cache) == Overlay(s.cache, s.base.coins);
  }

  lemma FlushToCache(s: Stack)
    requires s.Layer? && s.base.Layer? && Inv(s)
    ensures Inv(Flush(s).base) && View(Flush(s).base) == View(s)
  {
    ViewIsUnspent(s.base.base);
    MergeKeepsFlags(s.base.cache, s.cache, View(s.base.base));
  }

  // The best block survives a flush unless the child never learned it and the parent's own,
  // unflushed one differs from what is below it.
  lemma FlushBestBlock(s: Stack)
    requires s.Layer?
    ensures BestBlock(Flush(s).base) == BestBlock(s)
      <==> s.best != 0 || s.base.Disk? || s.base.best == 0 || s.base.best == BestBlock(s.base.base)
  {
  }

  lemma UnmarkFreshKeeps(s: Stack, o: Outpoint)
    requires s.Layer? && Inv(s) && o in s.cache
    ensures var s' := s.(cache := s.cache[o := s.cache[o].(isFresh := false)]);
      Inv(s') && View(s') == View(s)
  {
    var e := s.cache[o].(isFresh := false);
    UsageUpdate(s.cache, o, e);
    OverlayUpdate(s.cache, View(s.base), o, e);
    assert EntryOk(e, o, View(s.base));
  }

  // A missing FRESH flag costs only memory: it changes neither the view nor what a flush writes.
  lemma UnmarkFreshIsSafe(s: Stack, o: Outpoint)
    requires s.Layer? && Inv(s) && o in s.cache
    ensures var s' := s.(cache := s.cache[o := s.cache[o].(isFresh := false)]);
      Inv(s') && View(s') == View(s) && View(Flush(s').base) == View(s)
  {
    var s' := s.(cache := s.cache[o := s.cache[o].(isFresh := false)]);
    UnmarkFreshKeeps(s, o);
    FlushPreservesViews(s');
  }

  /* ---- Runs: the stack of caches refines a stack of plain maps ---- */

  datatype Op =
    | OpPush
    | OpPop
    | OpFlush
    | OpFetch(o: Outpoint)
    | OpAdd(o: Outpoint, coin: Coin, overwrite: bool)
    | OpSpend(o: Outpoint)
    | OpUncache(o: Outpoint)
    | OpSetBest(best: nat)
    | OpGetBest

  // What the callers promise, in terms of the plain layers alone.
  predicate Legal(v: seq<Plain>, op: Op)
    requires |v| >= 1
  {
    match op
    case OpPush => true
    case OpAdd(o, coin, overwrite) => |v| >= 2 && !coin.IsSpent() && (overwrite || o !in v[|v| - 1].coins)
    case _ => |v| >= 2
  }

  // Layers that have no hash take over the one below them, down to the first layer that has one.
  function Learned(v: seq<Plain>): (r: seq<Plain>)
    requires |v| >= 1
    ensures |r| == |v|
  {
    var n := |v| - 1;
    if n == 0 || v[n].best != 0 then v else Learned(v[..n]) + [Plain(v[n].coins, PlainBest(v[..n]))]
  }

  // The layer under the top one after a flush. Only the disk keeps its hash when it is told none.
  function Flushed(v: seq<Plain>): (r: Plain)
    requires |v| >= 2
  {
    var n := |v| - 1;
    Plain(v[n].coins, if n == 1 && v[n].best == 0 then v[0].best else v[n].best)
  }

  function AbstractStep(v: seq<Plain>, op: Op): (v': seq<Plain>)
    requires |v| >= 1 && Legal(v, op)
    ensures |v'| >= 1
  {
    var n := |v| - 1;
    var Plain(coins, best) := v[n];
    match op
    case OpPush => v + [Plain(coins, 0)]
    case OpPop => v[..n]
    case OpFlush => v[..n - 1] + [Flushed(v), v[n]]
    case OpAdd(o, coin, _) => if coin.IsUnspendable() then v else v[..n] + [Plain(coins[o := coin], best)]
    case OpSpend(o) => v[..n] + [Plain(coins - {o}, best)]
    case OpSetBest(hash) => v[..n] + [Plain(coins, hash)]
    case OpGetBest => Learned(v)
    case OpFetch(_) | OpUncache(_) => v
  }

  ghost function Step(s: Stack, op: Op): (r: Stack) {
    if op.OpPush? then Layer(map[], 0, 0, s)
    else if s.Disk? then s
    else
      match op
      case OpPop => s.base
      case OpFlush => Flush(s)
      case OpFetch(o) => Fetch(s, o)
      case OpAdd(o, coin, overwrite) => Add(s, o, coin, overwrite)
      case OpSpend(o) => Spend(s, o)
      case OpUncache(o) => Uncache(s, o)
      case OpSetBest(best) => Layer(s.cache, s.usage, best, s.base)
      case OpGetBest => LearnBest(s)
  }

  predicate Throws(s: Stack, op: Op) {
    s.Layer? && match op
      case OpFlush => FlushThrows(s)
      case OpAdd(o, coin, overwrite) => AddThrows(s, o, coin, overwrite)
      case _ => false
  }

  lemma ViewsShape(s: Stack)
    ensures |Views(s)| >= 1 && (|Views(s)| >= 2 <==> s.Layer?)
    ensures Views(s)[|Views(s)| - 1] == Plain(View(s), s.best)
    ensures s.Layer? ==> Views(s)[..|Views(s)| - 1] == Views(s.base)
  {
  }

  lemma FetchedBase(s: Stack, o: Outpoint)
    requires s.Layer? && Inv(s)
    ensures Fetch(s, o).Layer? && Views(Fetch(s, o).base) == Views(s.base)
    ensures Spend(s, o).Layer? && Spend(s, o).base == Fetch(s, o).base
  {
    FetchIsRead(s.base, o);
  }

  // Spending or fetching may load coins into lower layers, but shows nothing below the top.
  lemma BaseViewsKept(s: Stack, op: Op)
    requires s.Layer? && Inv(s)
    requires op.OpFetch? || op.OpAdd? || op.OpSpend? || op.OpUncache? || op.OpSetBest?
    ensures Step(s, op).Layer? && Views(Step(s, op).base) == Views(s.base)
  {
    match op
    case OpFetch(o) => FetchedBase(s, o);
    case OpSpend(o) => FetchedBase(s, o);
    case _ =>
  }

  lemma TopStepRefines(s: Stack, op: Op)
    requires s.Layer? && Inv(s) && |Views(s)| >= 1 && Legal(Views(s), op)
    requires op.OpFetch? || op.OpAdd? || op.OpSpend? || op.OpUncache? || op.OpSetBest?
    ensures !Throws(s, op) && Inv(Step(s, op))
    ensures Plain(View(Step(s, op)), Step(s, op).best) == AbstractStep(Views(s), op)[|Views(s)| - 1]
  {
    ViewsShape(s);
    match op
    case OpFetch(o) => FetchIsRead(s, o);
    case OpAdd(o, coin, overwrite) => AddIsUpdate(s, o, coin, overwrite);
    case OpSpend(o) => SpendIsRemoval(s, o);
    case OpUncache(o) => UncacheIsInvisible(s, o);
    case OpSetBest(_) =>
  }

  lemma TopViewsRefine(s: Stack, op: Op)
    requires s.Layer? && Inv(s) && |Views(s)| >= 1 && Legal(Views(s), op)
    requires op.OpFetch? || op.OpAdd? || op.OpSpend? || op.OpUncache? || op.OpSetBest?
    ensures Views(Step(s, op)) == AbstractStep(Views(s), op)
  {
    TopStepRefines(s, op);
    BaseViewsKept(s, op);
    ViewsShape(s);
    ViewsShape(Step(s, op));
  }

  lemma PushStep(s: Stack)
    requires Inv(s)
    ensures Inv(Step(s, OpPush)) && |Views(s)| >= 1 && Views(Step(s, OpPush)) == AbstractStep(Views(s), OpPush)
  {
    ViewsShape(s);
    assert Overlay(map[], View(s)) == View(s);
  }

  lemma StepRefines(s: Stack, op: Op)
    requires Inv(s) && |Views(s)| >= 1 && Legal(Views(s), op)
    ensures !Throws(s, op) && Inv(Step(s, op))
    ensures Views(Step(s, op)) == AbstractStep(Views(s), op)
  {
    ViewsShape(s);
    match op
    case OpPush =>
      PushStep(s);
    case OpPop =>
    case OpFlush =>
      FlushNeverThrows(s);
      FlushPreservesViews(s);
      FlushStep(s);
    case OpGetBest =>
      LearnBestIsRead(s);
    case _ =>
      TopStepRefines(s, op);
      TopViewsRefine(s, op);
  }

  lemma FlushStep(s: Stack)
    requires s.Layer? && Inv(s)
    ensures |Views(s)| >= 2 && Views(Flush(s)) == AbstractStep(Views(s), OpFlush)
  {
    var v, flushed := Views(s), Flush(s);
    var under := Views(flushed.base);
    FlushUnder(s, v, under);
    FlushPreservesViews(s);
    ViewsShape(s);
    assert Views(flushed) == under + [v[|v| - 1]];
  }

  lemma FlushUnder(s: Stack, v: seq<Plain>, under: seq<Plain>)
    requires s.Layer? && Inv(s) && v == Views(s) && under == Views(Flush(s).base)
    ensures |v| >= 2 && under == v[..|v| - 2] + [Flushed(v)]
  {
    FlushPreservesViews(s);
    ViewsShape(s);
    ViewsShape(s.base);
    WrittenViews(s.base, s.cache, s.best);
    assert v[..|v| - 1][..|v| - 2] == v[..|v| - 2];
  }

  // A write changes what the layer shows and its hash, and nothing below it.
  lemma WrittenViews(b: Stack, c: Cache, best: nat)
    ensures |Views(b)| >= 1
    ensures var w := BatchWrite(b, c, best);
      Views(w) == Views(b)[..|Views(b)| - 1] + [Plain(View(w), if b.Disk? && best == 0 then b.best else best)]
  {
    ViewsShape(b);
  }

  ghost function Run(s: Stack, ops: seq<Op>): (r: Stack)
    decreases |ops|
  {
    if ops == [] then s else Run(Step(s, ops[0]), ops[1..])
  }

  ghost predicate LegalRun(v: seq<Plain>, ops: seq<Op>)
    requires |v| >= 1
    decreases |ops|
  {
    ops == [] || (Legal(v, ops[0]) && LegalRun(AbstractStep(v, ops[0]), ops[1..]))
  }

  ghost function AbstractRun(v: seq<Plain>, ops: seq<Op>): (r: seq<Plain>)
    requires |v| >= 1 && LegalRun(v, ops)
    decreases |ops|
  {
    if ops == [] then v else AbstractRun(AbstractStep(v, ops[0]), ops[1..])
  }

  // A prefix of a run is its first step and a prefix of the rest.
  lemma RunPrefix(s: Stack, ops: seq<Op>, k: nat)
    requires 0 < k <= |ops|
    ensures Run(s, ops[..k]) == Run(Step(s, ops[0]), ops[1..][..k - 1])
  {
    var prefix := ops[..k];
    assert prefix != [] && prefix[0] == ops[0];
    assert prefix[1..] == ops[1..][..k - 1];
  }

  // Over any legal run from any disk: nothing throws, the flags and the memory counter stay right,
  // and every layer shows the coins, and has the best block hash, that a stack of plain layers would.
  lemma {:induction false} RunRefines(s: Stack, ops: seq<Op>)
    requires Inv(s) && |Views(s)| >= 1 && LegalRun(Views(s), ops)
    ensures Inv(Run(s, ops)) && Views(Run(s, ops)) == AbstractRun(Views(s), ops)
    ensures BestBlock(Run(s, ops)) == PlainBest(AbstractRun(Views(s), ops))
    ensures forall k :: 0 <= k < |ops| ==> !Throws(Run(s, ops[..k]), ops[k])
    decreases |ops|
  {
    if ops == [] {
      LearnBestIsRead(s);
    } else {
      var op, rest, s' := ops[0], ops[1..], Step(s, ops[0]);
      StepRefines(s, op);
      RunRefines(s', rest);
      forall k | 0 <= k < |ops|
        ensures !Throws(Run(s, ops[..k]), ops[k])
      {
        if k == 0 {
          assert ops[..0] == [];
        } else {
          RunPrefix(s, ops, k);
          assert !Throws(Run(s', rest[..k - 1]), rest[k - 1]);
        }
      }
    }
  }

  lemma RunOnce(s: Stack, op: Op, rest: seq<Op>)
    ensures Run(s, [op] + rest) == Run(Step(s, op), rest)
  {
    assert ([op] + rest)[1..] == rest;
  }

  lemma LegalOnce(v: seq<Plain>, op: Op, rest: seq<Op>)
    requires |v| >= 1 && Legal(v, op) && LegalRun(AbstractStep(v, op), rest)
    ensures LegalRun(v, [op] + rest)
  {
    assert ([op] + rest)[1..] == rest;
  }

  // Pushes a cache that learns block 2, then another; flushes the second perhaps.
  function LosingRun(flush: bool): (r: seq<Op>) {
    [OpPush] + ([OpSetBest(2)] + ([OpPush] + if flush then [OpFlush] else []))
  }

  lemma LosingRunIsLegal(flush: bool)
    ensures LegalRun(Views(Disk(map[], 1)), LosingRun(flush))
  {
    var last := if flush then [OpFlush] else [];
    var v := [Plain(map[], 1)];
    LegalOnce(v + [Plain(map[], 2)], OpPush, last);
    LegalOnce(v + [Plain(map[], 0)], OpSetBest(2), [OpPush] + last);
    LegalOnce(v, OpPush, [OpSetBest(2)] + ([OpPush] + last));
  }

  lemma LosingRunEnds(flush: bool)
    ensures var full := Layer(map[], 0, 0, Layer(map[], 0, 2, Disk(map[], 1)));
      Run(Disk(map[], 1), LosingRun(flush)) == if flush then Flush(full) else full
  {
    var last := if flush then [OpFlush] else [];
    var disk, one, two := Disk(map[], 1), Layer(map[], 0, 0, Disk(map[], 1)), Layer(map[], 0, 2, Disk(map[], 1));
    var third := [OpPush] + last;
    var second := [OpSetBest(2)] + third;
    RunOnce(disk, OpPush, second);
    RunOnce(one, OpSetBest(2), third);
    RunOnce(two, OpPush, last);
    if flush {
      assert [OpFlush] + [] == [OpFlush];
      RunOnce(Layer(map[], 0, 0, two), OpFlush, []);
    }
  }

  lemma FlushLoses()
    ensures BestBlock(Flush(Layer(map[], 0, 0, Layer(map[], 0, 2, Disk(map[], 1))))) == 1
  {}

  // A legal run that loses a best block: flushing the cache that never asked for the block makes
  // both caches report the disk's block 1 again.
  lemma FlushLosesBestBlock()
    ensures var disk := Disk(map[], 1);
      && LegalRun(Views(disk), LosingRun(true))
      && BestBlock(Run(disk, LosingRun(false))) == 2 && BestBlock(Run(disk, LosingRun(true))) == 1
  {
    LosingRunIsLegal(true);
    LosingRunEnds(false);
    LosingRunEnds(true);
    FlushLoses();
  }
}
