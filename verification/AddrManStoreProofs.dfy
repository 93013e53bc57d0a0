/** Loading a saved address manager gives the same manager with its entries renumbered. */
module AddrManStoreProofs {
  import opened AddrMan
  import AddrManCheck
  import opened AddrManConsistency
  import opened AddrManStore
  import opened Bits
  import opened Helpers

  /* ---- The order of the entries ---- */

  ghost predicate Ascending(ids: seq<int>) {
    forall i, j :: 0 <= i < j < |ids| ==> ids[i] < ids[j]
  }

  lemma {:induction false} IdsAscend(infos: Infos, n: nat)
    ensures Ascending(NewIds(infos, n)) && Ascending(TriedIds(infos, n))
  {
    if n > 0 {
      IdsAscend(infos, n - 1);
      IdsInInfos(infos, n - 1);
    }
  }

  lemma {:induction false} RankIsIndex(infos: Infos, n: nat, id: nat)
    requires id < n && id in infos && infos[id].nRefCount != 0
    ensures Rank(infos, id) < |NewIds(infos, n)| && NewIds(infos, n)[Rank(infos, id)] == id
  {
    if id < n - 1 {
      RankIsIndex(infos, n - 1, id);
    }
  }

  lemma {:induction false} TriedListed(infos: Infos, n: nat, id: nat)
    requires id < n && id in infos && infos[id].fInTried
    ensures id in TriedIds(infos, n)
  {
    if id < n - 1 {
      TriedListed(infos, n - 1, id);
    }
  }

  lemma {:induction false} FewerTried(infos: Infos, n: nat, id: nat)
    requires id < n && id in infos && infos[id].fInTried
    ensures |TriedIds(infos, id)| < |TriedIds(infos, n)|
  {
    if id < n - 1 {
      FewerTried(infos, n - 1, id);
    }
  }

  lemma {:induction false} DistinctCard(ids: seq<int>, s: set<int>)
    requires Ascending(ids) && forall id :: id in s <==> id in ids
    ensures |ids| == |s|
  {
    if ids == [] {
      forall id
        ensures id !in s
      {
        assert id in s <==> id in ids;
      }
      assert s == {};
    } else {
      var init, last := ids[..|ids| - 1], ids[|ids| - 1];
      assert ids == init + [last];
      DistinctCard(init, s - {last});
    }
  }

  // New entries have references, tried entries have none.
  lemma ReferredIsNew(env: Env, s: State, id: int)
    requires Inv(env, s) && id in s.mapInfo
    ensures s.mapInfo[id].nRefCount != 0 <==> !s.mapInfo[id].fInTried
  {
    if s.mapInfo[id].fInTried {
      assert Refs(s.vvNew, id) == {};
    }
  }

  lemma NewsListed(env: Env, s: State)
    requires Inv(env, s)
    ensures var news := NewIds(s.mapInfo, s.nIdCount);
      |news| == s.nNew && Ascending(news) && forall id :: id in News(s.mapInfo) <==> id in news
  {
    var news := NewIds(s.mapInfo, s.nIdCount);
    IdsInInfos(s.mapInfo, s.nIdCount);
    IdsAscend(s.mapInfo, s.nIdCount);
    forall id
      ensures id in News(s.mapInfo) <==> id in news
    {
      if id in s.mapInfo {
        ReferredIsNew(env, s, id);
        if s.mapInfo[id].nRefCount != 0 {
          RankIsIndex(s.mapInfo, s.nIdCount, id);
        }
      }
    }
    DistinctCard(news, News(s.mapInfo));
  }

  lemma TriedsListed(env: Env, s: State)
    requires Inv(env, s)
    ensures var trieds := TriedIds(s.mapInfo, s.nIdCount);
      |trieds| == s.nTried && Ascending(trieds) && forall id :: id in Trieds(s.mapInfo) <==> id in trieds
  {
    var trieds := TriedIds(s.mapInfo, s.nIdCount);
    IdsInInfos(s.mapInfo, s.nIdCount);
    IdsAscend(s.mapInfo, s.nIdCount);
    forall id
      ensures id in Trieds(s.mapInfo) <==> id in trieds
    {
      if id in s.mapInfo && s.mapInfo[id].fInTried {
        TriedListed(s.mapInfo, s.nIdCount, id);
      }
    }
    DistinctCard(trieds, Trieds(s.mapInfo));
  }

  lemma Merged(infos: Infos, news: seq<int>, trieds: seq<int>)
    requires Ascending(news) && Ascending(trieds)
    requires (forall id :: id in News(infos) <==> id in news) && forall id :: id in Trieds(infos) <==> id in trieds
    ensures Distinct(news + trieds) && forall id :: id in infos <==> id in news + trieds
    ensures forall k :: 0 <= k < |news + trieds| ==>
                          (news + trieds)[k] in infos && (infos[(news + trieds)[k]].fInTried <==> k >= |news|)
  {
    forall i | 0 <= i < |news|
      ensures news[i] in News(infos)
    {
      assert news[i] in news;
    }
    forall i | 0 <= i < |trieds|
      ensures trieds[i] in Trieds(infos)
    {
      assert trieds[i] in trieds;
    }
    forall id
      ensures id in infos <==> id in news + trieds
    {
      assert id in infos <==> id in News(infos) || id in Trieds(infos);
    }
  }

  // The order lists every entry once, new entries first.
  lemma OrderIsComplete(env: Env, s: State)
    requires Inv(env, s)
    ensures var order := Order(s);
      && |NewIds(s.mapInfo, s.nIdCount)| == s.nNew && |TriedIds(s.mapInfo, s.nIdCount)| == s.nTried
      && Distinct(order) && (forall id :: id in s.mapInfo <==> id in order)
      && (forall k :: 0 <= k < |order| ==> order[k] in s.mapInfo && (s.mapInfo[order[k]].fInTried <==> k >= s.nNew))
  {
    NewsListed(env, s);
    TriedsListed(env, s);
    Merged(s.mapInfo, NewIds(s.mapInfo, s.nIdCount), TriedIds(s.mapInfo, s.nIdCount));
  }

  /* ---- Loading the entries ---- */

  // The first |ids| entries have been loaded, in that order.
  ghost predicate Copied(infos: Infos, ids: seq<int>, t: State) {
    && (forall k :: 0 <= k < |ids| ==> ids[k] in infos)
    && t.nIdCount == |ids| == |t.vRandom|
    && (forall k :: k in t.mapInfo <==> 0 <= k < |ids|)
    && (forall k :: 0 <= k < |ids| ==> SameEntry(t.mapInfo[k], infos[ids[k]]))
    && AddrOk(t.mapAddr, t.mapInfo) && RandomOk(t.vRandom, t.mapInfo)
  }

  ghost predicate Distinct(ids: seq<int>) {
    forall i, j :: 0 <= i < j < |ids| ==> ids[i] != ids[j]
  }

  // Another entry's address is not known yet.
  lemma AddressIsUnknown(mapAddr: map<Ip, int>, infos: Infos, ids: seq<int>, t: State, id: int)
    requires AddrOk(mapAddr, infos) && Copied(infos, ids, t) && id in infos && id !in ids
    ensures infos[id].service.ip !in t.mapAddr
  {
    forall ip | ip in t.mapAddr
      ensures ip in mapAddr && mapAddr[ip] in ids
    {
      var k := t.mapAddr[ip];
      assert SameEntry(t.mapInfo[k], infos[ids[k]]);
      assert mapAddr[infos[ids[k]].service.ip] == ids[k];
    }
    assert mapAddr[infos[id].service.ip] == id;
  }

  lemma AddNewCopies(env: Env, s: State, ids: seq<int>, t: State, id: int)
    requires AddrOk(s.mapAddr, s.mapInfo) && Copied(s.mapInfo, ids, t) && id in s.mapInfo && id !in ids
    requires !s.mapInfo[id].fInTried
    ensures Copied(s.mapInfo, ids + [id], AddNew(env, t, OnDisk(s.mapInfo[id]), true))
  {
    AddressIsUnknown(s.mapAddr, s.mapInfo, ids, t, id);
    CopiedGrows(s.mapInfo, ids, t, AddNew(env, t, OnDisk(s.mapInfo[id]), true), id,
                OnDisk(s.mapInfo[id]).(nRandomPos := |t.vRandom|));
  }

  // One more entry with the next id, at the end of the random order.
  lemma CopiedGrows(infos: Infos, ids: seq<int>, t: State, t': State, id: int, info: Info)
    requires Copied(infos, ids, t) && id in infos && info.service.ip !in t.mapAddr
    requires SameEntry(info, infos[id]) && info.nRandomPos == |t.vRandom|
    requires t'.nIdCount == t.nIdCount + 1 && t'.mapInfo == t.mapInfo[t.nIdCount := info]
    requires t'.mapAddr == t.mapAddr[info.service.ip := t.nIdCount] && t'.vRandom == t.vRandom + [t.nIdCount]
    ensures Copied(infos, ids + [id], t')
  {
    AddrGrow(t.mapAddr, t.mapInfo, t.nIdCount, info);
    RandomGrow(t.vRandom, t.mapInfo, t.nIdCount, info);
  }

  // Where the tried entries loaded so far are.
  ghost predicate TriedSoFar(env: Env, s: State, ids: seq<int>, t: State) {
    && TriedOk(env, t.nKey, t.vvTried, t.mapInfo)
    && forall slot :: slot in t.vvTried ==>
                        0 <= t.vvTried[slot] < |ids| && slot in s.vvTried && ids[t.vvTried[slot]] == s.vvTried[slot]
  }

  lemma SlotIsFree(env: Env, s: State, ids: seq<int>, t: State, id: int)
    requires TriedOk(env, s.nKey, s.vvTried, s.mapInfo) && TriedSoFar(env, s, ids, t)
    requires id in s.mapInfo && id !in ids && s.mapInfo[id].fInTried
    ensures var slot := env.TriedSlot(s.nKey, s.mapInfo[id].service);
      slot !in t.vvTried && slot in s.vvTried && s.vvTried[slot] == id
  {
    var slot := env.TriedSlot(s.nKey, s.mapInfo[id].service);
    forall other | other in t.vvTried
      ensures s.vvTried[other] in ids
    {
      assert ids[t.vvTried[other]] == s.vvTried[other];
    }
    assert slot in s.vvTried && s.vvTried[slot] == id;
  }

  lemma AddTriedCopies(env: Env, s: State, ids: seq<int>, t: State, id: int)
    requires AddrOk(s.mapAddr, s.mapInfo) && Copied(s.mapInfo, ids, t)
    requires id in s.mapInfo && id !in ids && s.mapInfo[id].fInTried
    requires env.TriedSlot(t.nKey, s.mapInfo[id].service) !in t.vvTried
    ensures Copied(s.mapInfo, ids + [id], AddTried(env, t, OnDisk(s.mapInfo[id])))
  {
    AddressIsUnknown(s.mapAddr, s.mapInfo, ids, t, id);
    CopiedGrows(s.mapInfo, ids, t, AddTried(env, t, OnDisk(s.mapInfo[id])), id,
                OnDisk(s.mapInfo[id]).(nRandomPos := |t.vRandom|, fInTried := true));
  }

  lemma TriedGrow(env: Env, key: nat, vvTried: Table, infos: Infos, id: int, info: Info)
    requires TriedOk(env, key, vvTried, infos) && id !in infos && info.fInTried
    requires env.TriedSlot(key, info.service) !in vvTried
    ensures TriedOk(env, key, vvTried[env.TriedSlot(key, info.service) := id], infos[id := info])
  {}

  lemma AddTriedPlaces(env: Env, s: State, ids: seq<int>, t: State, id: int)
    requires TriedOk(env, s.nKey, s.vvTried, s.mapInfo) && t.nKey == s.nKey
    requires Copied(s.mapInfo, ids, t) && TriedSoFar(env, s, ids, t)
    requires id in s.mapInfo && id !in ids && s.mapInfo[id].fInTried
    ensures TriedSoFar(env, s, ids + [id], AddTried(env, t, OnDisk(s.mapInfo[id])))
  {
    SlotIsFree(env, s, ids, t, id);
    var info := OnDisk(s.mapInfo[id]).(nRandomPos := |t.vRandom|, fInTried := true);
    TriedGrow(env, t.nKey, t.vvTried, t.mapInfo, t.nIdCount, info);
  }

  // The new table is still empty.
  ghost predicate NoneReferred(t: State) {
    t.vvNew == map[] && forall k :: k in t.mapInfo ==> t.mapInfo[k].nRefCount == 0
  }

  lemma {:induction false} AddNewsCopies(env: Env, s: State, t: State, ids: seq<int>)
    requires AddrOk(s.mapAddr, s.mapInfo) && Copied(s.mapInfo, [], t) && NoneReferred(t) && Distinct(ids)
    requires forall k :: 0 <= k < |ids| ==> ids[k] in s.mapInfo && !s.mapInfo[ids[k]].fInTried
    ensures Copied(s.mapInfo, ids, AddNews(env, t, DiskInfos(s.mapInfo, ids), true))
  {
    if ids != [] {
      var init, last := ids[..|ids| - 1], ids[|ids| - 1];
      AddNewsCopies(env, s, t, init);
      var disk := DiskInfos(s.mapInfo, ids);
      assert disk[..|disk| - 1] == DiskInfos(s.mapInfo, init);
      AddNewCopies(env, s, init, AddNews(env, t, DiskInfos(s.mapInfo, init), true), last);
      assert init + [last] == ids;
    }
  }

  lemma {:induction false} AddNewsFrame(env: Env, t: State, infos: seq<Info>)
    requires NoneReferred(t)
    ensures var u := AddNews(env, t, infos, true);
      && NoneReferred(u) && u.vvTried == t.vvTried && u.nKey == t.nKey
      && u.nNew == t.nNew && u.nTried == t.nTried && u.nLastGood == t.nLastGood
  {
    if infos != [] {
      AddNewsFrame(env, t, infos[..|infos| - 1]);
    }
  }

  lemma {:induction false} AddTriedsCopies(env: Env, s: State, t: State, news: seq<int>, ids: seq<int>)
    requires AddrOk(s.mapAddr, s.mapInfo) && TriedOk(env, s.nKey, s.vvTried, s.mapInfo) && t.nKey == s.nKey
    requires Copied(s.mapInfo, news, t) && TriedSoFar(env, s, news, t) && NoneReferred(t) && Distinct(news + ids)
    requires forall k :: 0 <= k < |ids| ==> ids[k] in s.mapInfo && s.mapInfo[ids[k]].fInTried
    ensures var u := AddTrieds(env, t, DiskInfos(s.mapInfo, ids));
      && Copied(s.mapInfo, news + ids, u) && TriedSoFar(env, s, news + ids, u) && NoneReferred(u)
      && u.nKey == t.nKey && u.nNew == t.nNew && u.nTried == t.nTried && u.nLastGood == t.nLastGood
  {
    if ids == [] {
      assert news + ids == news;
    } else {
      var init, last := ids[..|ids| - 1], ids[|ids| - 1];
      SplitLast(news, ids);
      AddTriedsCopies(env, s, t, news, init);
      var disk := DiskInfos(s.mapInfo, ids);
      assert disk[..|disk| - 1] == DiskInfos(s.mapInfo, init);
      var u := AddTrieds(env, t, DiskInfos(s.mapInfo, init));
      SlotIsFree(env, s, news + init, u, last);
      AddTriedCopies(env, s, news + init, u, last);
      AddTriedPlaces(env, s, news + init, u, last);
    }
  }

  lemma SplitLast(a: seq<int>, b: seq<int>)
    requires Distinct(a + b) && b != []
    ensures var init, last := b[..|b| - 1], b[|b| - 1];
      a + b == a + init + [last] && Distinct(a + init) && last !in a + init
  {
    var init := a + b[..|b| - 1];
    var all := a + b;
    assert forall i :: 0 <= i < |init| ==> init[i] == all[i] && all[i] != all[|all| - 1];
  }

  // Both lists of entries loaded, before any positions of the new table.
  ghost predicate TablesOk(env: Env, s: State, t: State)
    requires s.nIdCount >= 0
  {
    && Copied(s.mapInfo, Order(s), t) && TriedSoFar(env, s, Order(s), t)
    && t.nKey == s.nKey && t.nNew == s.nNew && t.nTried == s.nTried
  }

  lemma NewsLoaded(env: Env, s: State, news: seq<int>, start: State)
    requires AddrOk(s.mapAddr, s.mapInfo) && Distinct(news)
    requires forall k :: 0 <= k < |news| ==> news[k] in s.mapInfo && !s.mapInfo[news[k]].fInTried
    requires start == Empty(s.nKey).(nNew := s.nNew, nTried := s.nTried)
    ensures var t := AddNews(env, start, DiskInfos(s.mapInfo, news), true);
      && Copied(s.mapInfo, news, t) && TriedSoFar(env, s, news, t) && NoneReferred(t)
      && t.nKey == s.nKey && t.nNew == s.nNew && t.nTried == s.nTried
  {
    AddNewsCopies(env, s, start, news);
    AddNewsFrame(env, start, DiskInfos(s.mapInfo, news));
  }

  lemma AllNew(env: Env, s: State, news: seq<int>)
    requires Inv(env, s) && news == NewIds(s.mapInfo, s.nIdCount)
    ensures Distinct(news) && forall k :: 0 <= k < |news| ==> news[k] in s.mapInfo && !s.mapInfo[news[k]].fInTried
  {
    NewsListed(env, s);
    forall k | 0 <= k < |news|
      ensures news[k] in News(s.mapInfo)
    {
      assert news[k] in news;
    }
  }

  lemma TablesLoaded(env: Env, s: State)
    requires Inv(env, s) && Savable(s)
    ensures Usable(Save(s)) && BucketCount(Save(s)) == NEW_BUCKET_COUNT
    ensures TablesOk(env, s, Tables(env, Save(s))) && NoneReferred(Tables(env, Save(s)))
  {
    XorTwice(NEW_BUCKET_COUNT, BUCKETS_MARK);
    var news, trieds := NewIds(s.mapInfo, s.nIdCount), TriedIds(s.mapInfo, s.nIdCount);
    IdsInInfos(s.mapInfo, s.nIdCount);
    AllNew(env, s, news);
    NewsLoaded(env, s, news, Start(Save(s)));
    OrderIsComplete(env, s);
    AddTriedsCopies(env, s, AddNews(env, Start(Save(s)), DiskInfos(s.mapInfo, news), true), news, trieds);
  }

  lemma InvSavable(env: Env, s: State)
    requires Inv(env, s)
    ensures Savable(s)
  {}

  // New entries that no bucket refers to yet.
  ghost function Loose(infos: Infos): (r: set<int>) {
    set k | k in infos && !infos[k].fInTried && infos[k].nRefCount == 0
  }

  lemma CopiedCounts(s: State, order: seq<int>, t: State, n: nat)
    requires Copied(s.mapInfo, order, t) && n <= |order|
    requires forall k :: 0 <= k < |order| ==> order[k] in s.mapInfo && (s.mapInfo[order[k]].fInTried <==> k >= n)
    ensures |News(t.mapInfo)| == n && |Trieds(t.mapInfo)| == |order| - n
  {
    assert News(t.mapInfo) == Range(n);
    assert t.mapInfo.Keys == Range(|order|);
    AddrManCheck.NewsAndTrieds(t.mapInfo);
  }

  lemma CopiedInfoOk(infos: Infos, nIdCount: int, order: seq<int>, t: State)
    requires InfoOk(infos, nIdCount) && Copied(infos, order, t)
    ensures InfoOk(t.mapInfo, t.nIdCount)
  {
    forall k | k in t.mapInfo
      ensures 0 <= k < t.nIdCount
    {
      var id := order[k];
      assert id in infos && SameEntry(t.mapInfo[k], infos[id]);
    }
  }

  lemma TablesPartial(env: Env, s: State, t: State)
    requires Inv(env, s) && TablesOk(env, s, t) && NoneReferred(t)
    ensures Partial(env, t, Loose(t.mapInfo), 0)
  {
    OrderIsComplete(env, s);
    CopiedCounts(s, Order(s), t, s.nNew);
    CopiedInfoOk(s.mapInfo, s.nIdCount, Order(s), t);
    forall k | k in t.mapInfo
      ensures |Refs(t.vvNew, k)| == 0
    {
      assert Refs(t.vvNew, k) == {};
    }
  }

  /* ---- Loading the positions ---- */

  // The slots before position i of bucket b have been filled as they were.
  ghost predicate Filled(order: seq<int>, from: Table, to: Table, b: nat, i: nat) {
    && (forall slot :: slot in to ==>
          AddrManCheck.Before(slot, b, i) && slot in from && 0 <= to[slot] < |order| && order[to[slot]] == from[slot])
    && (forall slot :: slot in from && AddrManCheck.Before(slot, b, i) ==> slot in to)
  }

  ghost predicate Placed(env: Env, s: State, t: State, b: nat, i: nat)
    requires s.nIdCount >= 0
  {
    TablesOk(env, s, t) && Partial(env, t, Loose(t.mapInfo), 0) && Filled(Order(s), s.vvNew, t.vvNew, b, i)
  }

  lemma FilledStep(order: seq<int>, from: Table, to: Table, b: nat, i: nat, k: int)
    requires Filled(order, from, to, b, i)
    ensures Slot(b, i) !in from ==> Filled(order, from, to, b, i + 1)
    ensures Slot(b, i) in from && 0 <= k < |order| && order[k] == from[Slot(b, i)] ==>
              Filled(order, from, to[Slot(b, i) := k], b, i + 1)
  {}

  // An entry has fewer references while one of its slots is still to come.
  lemma FewerRefs(order: seq<int>, from: Table, to: Table, b: nat, i: nat, k: int)
    requires Filled(order, from, to, b, i) && Slot(b, i) in from
    requires 0 <= k < |order| && order[k] == from[Slot(b, i)]
    ensures |Refs(to, k)| < |Refs(from, from[Slot(b, i)])|
  {
    var slot := Slot(b, i);
    var mine, all := Refs(to, k), Refs(from, from[slot]);
    assert mine <= all - {slot};
    CardMono(mine, all - {slot});
    assert slot in all;
  }

  lemma RankOf(env: Env, s: State, slot: Slot)
    requires Inv(env, s) && slot in s.vvNew
    ensures s.vvNew[slot] in s.mapInfo && s.vvNew[slot] >= 0
    ensures var k := Rank(s.mapInfo, s.vvNew[slot]);
      k < s.nNew && k < |Order(s)| && Order(s)[k] == s.vvNew[slot]
  {
    var id := s.vvNew[slot];
    ReferredIsNew(env, s, id);
    NewsListed(env, s);
    RankIsIndex(s.mapInfo, s.nIdCount, id);
  }

  lemma EntryIsRef(env: Env, s: State, t: State, b: nat, i: nat, k: nat)
    requires Inv(env, s) && Placed(env, s, t, b, i) && Slot(b, i) in s.vvNew && k < s.nNew
    requires k < |Order(s)| && Order(s)[k] == s.vvNew[Slot(b, i)]
    ensures AddEntry(env, t, s.nNew, b, k, true) == AddRef(t, Slot(b, i), k)
    ensures k in t.mapInfo && !t.mapInfo[k].fInTried && t.mapInfo[k].nRefCount < NEW_BUCKETS_PER_ADDRESS
    ensures Slot(b, i) == env.NewSlotIn(t.nKey, b, t.mapInfo[k].service) && 0 <= b < NEW_BUCKET_COUNT
    ensures Slot(b, i) !in t.vvNew
  {
    var slot := Slot(b, i);
    assert SameEntry(t.mapInfo[k], s.mapInfo[s.vvNew[slot]]);
    FewerRefs(Order(s), s.vvNew, t.vvNew, b, i, k);
  }

  lemma RefKeepsTables(env: Env, s: State, t: State, slot: Slot, k: int)
    requires s.nIdCount >= 0 && TablesOk(env, s, t) && k in t.mapInfo && !t.mapInfo[k].fInTried
    ensures TablesOk(env, s, AddRef(t, slot, k))
  {
    CountedElsewhere(t.mapAddr, t.vRandom, t.mapInfo, k, 1);
    TriedUpdate(env, t.nKey, t.vvTried, t.mapInfo, k, Counted(t.mapInfo, k, 1)[k]);
  }

  lemma RefKeepsPartial(env: Env, t: State, slot: Slot, k: int)
    requires Partial(env, t, Loose(t.mapInfo), 0) && k in t.mapInfo
    requires !t.mapInfo[k].fInTried && t.mapInfo[k].nRefCount < NEW_BUCKETS_PER_ADDRESS
    requires slot !in t.vvNew && 0 <= slot.bucket < NEW_BUCKET_COUNT
    requires slot == env.NewSlotIn(t.nKey, slot.bucket, t.mapInfo[k].service)
    ensures Partial(env, AddRef(t, slot, k), Loose(AddRef(t, slot, k).mapInfo), 0)
  {
    AddRefPartial(env, t, slot, k, Loose(t.mapInfo), 0);
    LooseCounted(t.vvNew, t.mapInfo, k);
  }

  lemma LooseCounted(vvNew: Table, infos: Infos, k: int)
    requires RefsOk(vvNew, infos) && k in infos
    ensures Loose(Counted(infos, k, 1)) == Loose(infos) - {k}
  {
    assert infos[k].nRefCount == |Refs(vvNew, k)|;
  }

  lemma EntryPlaced(env: Env, s: State, t: State, b: nat, i: nat)
    requires Inv(env, s) && Placed(env, s, t, b, i) && Slot(b, i) in s.vvNew
    ensures s.vvNew[Slot(b, i)] >= 0
    ensures Placed(env, s, AddEntry(env, t, s.nNew, b, Rank(s.mapInfo, s.vvNew[Slot(b, i)]), true), b, i + 1)
  {
    var slot := Slot(b, i);
    RankOf(env, s, slot);
    var k := Rank(s.mapInfo, s.vvNew[slot]);
    EntryIsRef(env, s, t, b, i, k);
    RefKeepsTables(env, s, t, slot, k);
    RefKeepsPartial(env, t, slot, k);
    FilledStep(Order(s), s.vvNew, t.vvNew, b, i, k);
  }

  lemma NoEntryPlaced(env: Env, s: State, t: State, b: nat, i: nat)
    requires s.nIdCount >= 0 && Placed(env, s, t, b, i) && Slot(b, i) !in s.vvNew
    ensures Placed(env, s, t, b, i + 1)
  {
    FilledStep(Order(s), s.vvNew, t.vvNew, b, i, 0);
  }

  // Filling the first i slots of bucket b from the saved table.
  ghost function Fill(env: Env, s: State, t: State, b: nat, i: nat): (r: State)
    requires Savable(s)
  {
    if i == 0 then t else FillSlot(env, s, Fill(env, s, t, b, i - 1), b, i - 1)
  }

  ghost function FillSlot(env: Env, s: State, t: State, b: nat, i: nat): (r: State)
    requires Savable(s)
  {
    if Slot(b, i) in s.vvNew then AddEntry(env, t, s.nNew, b, Rank(s.mapInfo, s.vvNew[Slot(b, i)]), true) else t
  }

  lemma SlotPlaced(env: Env, s: State, t: State, b: nat, i: nat)
    requires Inv(env, s) && Savable(s) && Placed(env, s, t, b, i)
    ensures Placed(env, s, FillSlot(env, s, t, b, i), b, i + 1)
  {
    if Slot(b, i) in s.vvNew {
      EntryPlaced(env, s, t, b, i);
    } else {
      NoEntryPlaced(env, s, t, b, i);
    }
  }

  // What one slot hands on to the next, the whole bucket does.
  lemma {:induction false} FillKeeps(env: Env, s: State, t: State, b: nat, i: nat, p: (State, nat) -> bool)
    requires Savable(s) && p(t, 0) && forall u: State, j: nat :: p(u, j) ==> p(FillSlot(env, s, u, b, j), j + 1)
    ensures p(Fill(env, s, t, b, i), i)
  {
    if i > 0 {
      FillKeeps(env, s, t, b, i - 1, p);
    }
  }

  lemma FillPlaced(env: Env, s: State, t: State, b: nat, i: nat)
    requires Inv(env, s) && Savable(s) && Placed(env, s, t, b, 0)
    ensures Placed(env, s, Fill(env, s, t, b, i), b, i)
  {
    var p := (u: State, j: nat) => s.nIdCount >= 0 && Placed(env, s, u, b, j);
    forall u: State, j: nat | p(u, j)
      ensures p(FillSlot(env, s, u, b, j), j + 1)
    {
      SlotPlaced(env, s, u, b, j);
    }
    FillKeeps(env, s, t, b, i, p);
  }

  lemma {:induction false} FillIsEntries(env: Env, s: State, t: State, b: nat, i: nat)
    requires Savable(s)
    ensures Fill(env, s, t, b, i) == AddEntries(env, t, s.nNew, b, Entries(s.mapInfo, s.vvNew, b, i), true)
  {
    if i > 0 {
      FillIsEntries(env, s, t, b, i - 1);
      EntriesSnoc(env, t, s.nNew, s.mapInfo, s.vvNew, b, i - 1);
    }
  }

  lemma EntriesSnoc(env: Env, t: State, nNew: int, infos: Infos, vvNew: Table, b: int, i: nat)
    requires forall slot :: slot in vvNew ==> vvNew[slot] >= 0
    ensures var u := AddEntries(env, t, nNew, b, Entries(infos, vvNew, b, i), true);
      AddEntries(env, t, nNew, b, Entries(infos, vvNew, b, i + 1), true) ==
      if Slot(b, i) in vvNew then AddEntry(env, u, nNew, b, Rank(infos, vvNew[Slot(b, i)]), true) else u
  {
    var before, entries := Entries(infos, vvNew, b, i), Entries(infos, vvNew, b, i + 1);
    if Slot(b, i) in vvNew {
      assert entries[..|entries| - 1] == before;
    } else {
      assert entries == before;
    }
  }

  lemma BucketDone(env: Env, s: State, t: State, b: nat)
    requires Inv(env, s) && Placed(env, s, t, b, BUCKET_SIZE)
    ensures Placed(env, s, t, b + 1, 0)
  {
    FilledBucket(Order(s), s.vvNew, t.vvNew, b);
  }

  lemma FilledBucket(order: seq<int>, from: Table, to: Table, b: nat)
    requires Filled(order, from, to, b, BUCKET_SIZE) && forall slot :: slot in from ==> 0 <= slot.pos < BUCKET_SIZE
    ensures Filled(order, from, to, b + 1, 0)
  {}

  // Filling the first b buckets.
  ghost function FillAll(env: Env, s: State, t: State, size: nat, b: nat): (r: State)
    requires Savable(s)
  {
    if b == 0 then t else Fill(env, s, FillAll(env, s, t, size, b - 1), b - 1, size)
  }

  lemma BucketPlaced(env: Env, s: State, u: State, size: nat, b: nat)
    requires Inv(env, s) && Savable(s) && Placed(env, s, u, b, 0) && size == BUCKET_SIZE
    ensures Placed(env, s, Fill(env, s, u, b, size), b + 1, 0)
  {
    FillPlaced(env, s, u, b, size);
    BucketDone(env, s, Fill(env, s, u, b, size), b);
  }

  lemma {:induction false} FillAllKeeps(env: Env, s: State, t: State, size: nat, b: nat, p: (State, nat) -> bool)
    requires Savable(s) && p(t, 0) && forall u: State, n: nat :: p(u, n) ==> p(Fill(env, s, u, n, size), n + 1)
    ensures p(FillAll(env, s, t, size, b), b)
    decreases b
  {
    if b > 0 {
      FillAllKeeps(env, s, t, size, b - 1, p);
    }
  }

  lemma BucketsPlaced(env: Env, s: State, t: State, size: nat, b: nat)
    requires Inv(env, s) && Savable(s) && Placed(env, s, t, 0, 0) && size == BUCKET_SIZE
    ensures Placed(env, s, FillAll(env, s, t, size, b), b, 0)
  {
    var p := (u: State, n: nat) => s.nIdCount >= 0 && Placed(env, s, u, n, 0);
    forall u: State, n: nat | p(u, n)
      ensures p(Fill(env, s, u, n, size), n + 1)
    {
      BucketPlaced(env, s, u, size, n);
    }
    FillAllKeeps(env, s, t, size, b, p);
  }

  lemma {:induction false} FillIsBuckets(env: Env, s: State, t: State, size: nat, b: nat)
    requires Savable(s)
    ensures FillAll(env, s, t, size, b) == AddBuckets(env, t, s.nNew, Buckets(s.mapInfo, s.vvNew, size, b), true)
    decreases b
  {
    if b > 0 {
      FillIsBuckets(env, s, t, size, b - 1);
      FillIsEntries(env, s, FillAll(env, s, t, size, b - 1), b - 1, size);
      var before, all := Buckets(s.mapInfo, s.vvNew, size, b - 1), Buckets(s.mapInfo, s.vvNew, size, b);
      assert all[..|all| - 1] == before && all[|all| - 1] == Entries(s.mapInfo, s.vvNew, b - 1, size);
    }
  }

  /* ---- The result ---- */

  lemma AllFilled(order: seq<int>, from: Table, to: Table)
    requires Filled(order, from, to, NEW_BUCKET_COUNT, 0) && Distinct(order)
    requires forall slot :: slot in from ==> slot.bucket < NEW_BUCKET_COUNT
    ensures forall slot :: slot in to <==> slot in from
    ensures forall k :: 0 <= k < |order| ==> Refs(to, k) == Refs(from, order[k])
  {
    forall k | 0 <= k < |order|
      ensures Refs(to, k) == Refs(from, order[k])
    {
      forall slot
        ensures slot in Refs(to, k) <==> slot in Refs(from, order[k])
      {
        if slot in to {
          assert order[to[slot]] == from[slot];
        }
      }
    }
  }

  // With all references back, every entry has as many as it had.
  lemma SameRefs(order: seq<int>, s: State, t: State)
    requires RefsOk(s.vvNew, s.mapInfo) && RefsOk(t.vvNew, t.mapInfo) && Copied(s.mapInfo, order, t)
    requires forall k :: 0 <= k < |order| ==> Refs(t.vvNew, k) == Refs(s.vvNew, order[k])
    ensures forall k :: 0 <= k < |order| ==> t.mapInfo[k].nRefCount == s.mapInfo[order[k]].nRefCount
  {
    forall k | 0 <= k < |order|
      ensures t.mapInfo[k].nRefCount == s.mapInfo[order[k]].nRefCount
    {
      var id := order[k];
      assert id in s.mapInfo && s.mapInfo[id].nRefCount == |Refs(s.vvNew, id)|;
      assert k in t.mapInfo && t.mapInfo[k].nRefCount == |Refs(t.vvNew, k)|;
    }
  }

  lemma NoneLoose(order: seq<int>, s: State, t: State)
    requires Copied(s.mapInfo, order, t) && RefCountsOk(s.mapInfo, {})
    requires forall k :: 0 <= k < |order| ==> t.mapInfo[k].nRefCount == s.mapInfo[order[k]].nRefCount
    ensures Loose(t.mapInfo) == {}
  {
    forall k
      ensures k !in Loose(t.mapInfo)
    {
      if k in t.mapInfo {
        var id := order[k];
        assert id in s.mapInfo && SameEntry(t.mapInfo[k], s.mapInfo[id]);
      }
    }
  }

  lemma LoadedInv(env: Env, s: State, t: State)
    requires Inv(env, s) && Placed(env, s, t, NEW_BUCKET_COUNT, 0)
    ensures Inv(env, t) && Loose(t.mapInfo) == {}
    ensures forall slot :: slot in t.vvNew <==> slot in s.vvNew
    ensures forall k :: 0 <= k < |Order(s)| ==> t.mapInfo[k].nRefCount == s.mapInfo[Order(s)[k]].nRefCount
  {
    OrderIsComplete(env, s);
    AllFilled(Order(s), s.vvNew, t.vvNew);
    SameRefs(Order(s), s, t);
    NoneLoose(Order(s), s, t);
  }

  lemma {:induction false} NothingPruned(t: State, n: nat)
    requires Loose(t.mapInfo) == {}
    ensures Pruned(t, n) == t
  {
    if n > 0 {
      NothingPruned(t, n - 1);
      assert n - 1 !in Loose(t.mapInfo);
    }
  }

  lemma TriedRenumbered(env: Env, s: State, t: State)
    requires Inv(env, s) && TablesOk(env, s, t)
    ensures forall slot :: slot in t.vvTried <==> slot in s.vvTried
  {
    OrderIsComplete(env, s);
    forall slot | slot in s.vvTried
      ensures slot in t.vvTried
    {
      var id := s.vvTried[slot];
      var k :| 0 <= k < |Order(s)| && Order(s)[k] == id;
      assert SameEntry(t.mapInfo[k], s.mapInfo[id]);
    }
  }

  lemma AddressesRenumbered(env: Env, s: State, t: State)
    requires Inv(env, s) && TablesOk(env, s, t)
    ensures forall ip :: ip in t.mapAddr <==> ip in s.mapAddr
    ensures forall ip :: ip in t.mapAddr ==> 0 <= t.mapAddr[ip] < |Order(s)| && Order(s)[t.mapAddr[ip]] == s.mapAddr[ip]
  {
    OrderIsComplete(env, s);
    forall ip | ip in s.mapAddr
      ensures ip in t.mapAddr
    {
      var id := s.mapAddr[ip];
      var k :| 0 <= k < |Order(s)| && Order(s)[k] == id;
      assert SameEntry(t.mapInfo[k], s.mapInfo[id]);
    }
    forall ip | ip in t.mapAddr
      ensures ip in s.mapAddr && 0 <= t.mapAddr[ip] < |Order(s)| && Order(s)[t.mapAddr[ip]] == s.mapAddr[ip]
    {
      var k := t.mapAddr[ip];
      assert SameEntry(t.mapInfo[k], s.mapInfo[Order(s)[k]]);
    }
  }

  lemma PlacedRenumbers(env: Env, s: State, t: State)
    requires Inv(env, s) && Placed(env, s, t, NEW_BUCKET_COUNT, 0)
    ensures Renumbered(s, t, Order(s))
  {
    OrderIsComplete(env, s);
    LoadedInv(env, s, t);
    TriedRenumbered(env, s, t);
    AddressesRenumbered(env, s, t);
  }

  lemma StartsFilled(env: Env, s: State, t: State)
    requires NewOk(env, s.nKey, s.vvNew, s.mapInfo) && t.vvNew == map[] && s.nIdCount >= 0
    ensures Filled(Order(s), s.vvNew, t.vvNew, 0, 0)
  {
    assert forall slot :: slot in s.vvNew ==> slot.bucket >= 0 && slot.pos >= 0;
  }

  lemma LoadedPlaced(env: Env, s: State, t: State)
    requires Inv(env, s) && Savable(s) && TablesOk(env, s, t) && NoneReferred(t)
    ensures Placed(env, s, FillAll(env, s, t, BUCKET_SIZE, NEW_BUCKET_COUNT), NEW_BUCKET_COUNT, 0)
  {
    TablesPartial(env, s, t);
    StartsFilled(env, s, t);
    BucketsPlaced(env, s, t, BUCKET_SIZE, NEW_BUCKET_COUNT);
  }

  lemma SavedIsWellFormed(env: Env, s: State)
    requires Inv(env, s) && Savable(s)
    ensures WellFormed(Save(s)) && Usable(Save(s))
  {
    XorTwice(NEW_BUCKET_COUNT, BUCKETS_MARK);
    assert |NewIds(s.mapInfo, s.nIdCount)| == s.nNew && |TriedIds(s.mapInfo, s.nIdCount)| == s.nTried by {
      OrderIsComplete(env, s);
    }
    IdsInInfos(s.mapInfo, s.nIdCount);
    DiskInfosSize(s.mapInfo, NewIds(s.mapInfo, s.nIdCount));
    DiskInfosSize(s.mapInfo, TriedIds(s.mapInfo, s.nIdCount));
  }

  lemma LoadIs(env: Env, s: State, u: State)
    requires Savable(s) && Usable(Save(s)) && Loose(u.mapInfo) == {}
    requires u == FillAll(env, s, Tables(env, Save(s)), BUCKET_SIZE, NEW_BUCKET_COUNT)
    ensures Load(env, Save(s)) == u
  {
    FillIsBuckets(env, s, Tables(env, Save(s)), BUCKET_SIZE, NEW_BUCKET_COUNT);
    if u.nIdCount >= 0 {
      NothingPruned(u, u.nIdCount);
    }
  }

  // Saving a consistent manager and loading it into a fresh one loses nothing: the result is
  // consistent, and the same manager with its entries renumbered.
  lemma LoadSave(env: Env, s: State)
    requires Inv(env, s)
    ensures Savable(s) && WellFormed(Save(s))
    ensures Inv(env, Load(env, Save(s))) && Renumbered(s, Load(env, Save(s)), Order(s))
    ensures TimesOk(s.mapInfo) ==> TimesOk(Load(env, Save(s)).mapInfo)
  {
    InvSavable(env, s);
    SavedIsWellFormed(env, s);
    var u := FillAll(env, s, Tables(env, Save(s)), BUCKET_SIZE, NEW_BUCKET_COUNT);
    assert Loose(u.mapInfo) == {} && Inv(env, u) && Renumbered(s, u, Order(s)) by {
      TablesLoaded(env, s);
      LoadedPlaced(env, s, Tables(env, Save(s)));
      LoadedInv(env, s, u);
      PlacedRenumbers(env, s, u);
    }
    LoadIs(env, s, u);
    RenumberedTimes(s, u, Order(s));
  }

  lemma RenumberedTimes(s: State, t: State, order: seq<int>)
    requires Renumbered(s, t, order)
    ensures TimesOk(s.mapInfo) ==> TimesOk(t.mapInfo)
  {
    forall k | k in t.mapInfo && TimesOk(s.mapInfo)
      ensures t.mapInfo[k].nLastTry >= 0 && t.mapInfo[k].nLastSuccess >= 0
      ensures t.mapInfo[k].fInTried ==> t.mapInfo[k].nLastSuccess != 0
    {
      assert order[k] in s.mapInfo;
    }
  }

  lemma {:induction false} DiskInfosSize(infos: Infos, ids: seq<int>)
    requires forall i :: 0 <= i < |ids| ==> ids[i] in infos
    ensures |DiskInfos(infos, ids)| == |ids|
  {
    if ids != [] {
      DiskInfosSize(infos, ids[..|ids| - 1]);
    }
  }

  /* ---- A saved manager is within the limits ---- */

  lemma {:induction false} ValuesCard(m: Table)
    ensures |m.Values| <= |m.Keys|
    decreases |m|
  {
    if m.Keys != {} {
      var slot := Any(m.Keys);
      var rest := m - {slot};
      ValuesCard(rest);
      assert rest.Keys == m.Keys - {slot};
      forall id | id in m.Values
        ensures id in rest.Values + {m[slot]}
      {
        var other :| other in m && m[other] == id;
        assert other == slot || (other in rest && rest[other] == id);
      }
      CardMono(m.Values, rest.Values + {m[slot]});
    } else {
      assert m.Values == {};
    }
  }

  ghost function Row(b: int, n: nat): (r: set<Slot>)
    ensures forall slot :: slot in r <==> slot.bucket == b && 0 <= slot.pos < n
    ensures |r| == n
  {
    if n == 0 then {} else Row(b, n - 1) + {Slot(b, n - 1)}
  }

  ghost function Grid(m: nat, n: nat): (r: set<Slot>)
    ensures forall slot :: slot in r <==> 0 <= slot.bucket < m && 0 <= slot.pos < n
    ensures |r| == m * n
  {
    if m == 0 then {} else
      assert Grid(m - 1, n) !! Row(m - 1, n);
      Grid(m - 1, n) + Row(m - 1, n)
  }

  // A table whose slots are in range refers to no more entries than it has slots.
  lemma TableCard(table: Table, ids: set<int>, m: nat, n: nat)
    requires forall slot :: slot in table ==> 0 <= slot.bucket < m && 0 <= slot.pos < n
    requires ids <= table.Values
    ensures |ids| <= m * n
  {
    CardMono(ids, table.Values);
    ValuesCard(table);
    CardMono(table.Keys, Grid(m, n));
  }

  lemma SavedWithinLimits(env: Env, s: State)
    requires Inv(env, s)
    ensures Savable(s) && WithinLimits(Save(s))
  {
    InvSavable(env, s);
    forall id | id in News(s.mapInfo)
      ensures id in s.vvNew.Values
    {
      assert Refs(s.vvNew, id) != {};
      var slot := Any(Refs(s.vvNew, id));
      assert s.vvNew[slot] == id;
    }
    forall id | id in Trieds(s.mapInfo)
      ensures id in s.vvTried.Values
    {
      assert s.vvTried[env.TriedSlot(s.nKey, s.mapInfo[id].service)] == id;
    }
    TableCard(s.vvNew, News(s.mapInfo), NEW_BUCKET_COUNT, BUCKET_SIZE);
    TableCard(s.vvTried, Trieds(s.mapInfo), TRIED_BUCKET_COUNT, BUCKET_SIZE);
  }

  /* ---- What loading any file keeps ---- */

  lemma DeleteRandom(s: State, id: int)
    requires RandomOk(s.vRandom, s.mapInfo) && id in s.mapInfo
    ensures RandomOk(Delete(s, id).vRandom, Delete(s, id).mapInfo)
  {
    var pos, last := s.mapInfo[id].nRandomPos, |s.vRandom| - 1;
    DeleteIs(s, id);
    if pos == last {
      RandomShrink(s.vRandom, s.mapInfo, id);
    } else {
      SwappedShrink(s.vRandom, s.mapInfo, pos, last, id);
    }
  }

  lemma SwappedShrink(vRandom: seq<int>, infos: Infos, pos: int, last: int, id: int)
    requires RandomOk(vRandom, infos) && id in infos && pos == infos[id].nRandomPos < last == |vRandom| - 1
    ensures 0 <= pos && id in SwappedInfos(vRandom, infos, pos, last)
    ensures RandomOk(SwappedRandom(vRandom, pos, last)[..last], SwappedInfos(vRandom, infos, pos, last) - {id})
  {
    RandomSwap(vRandom, infos, pos, last);
    RandomShrink(SwappedRandom(vRandom, pos, last), SwappedInfos(vRandom, infos, pos, last), id);
  }

  // Ids are given out in order, and the random order points back at every entry.
  ghost predicate Loading(infos: Infos, vRandom: seq<int>, nIdCount: int) {
    0 <= nIdCount && RandomOk(vRandom, infos) && forall id :: id in infos ==> 0 <= id < nIdCount
  }

  lemma LoadingGrows(infos: Infos, vRandom: seq<int>, nIdCount: int, info: Info)
    requires Loading(infos, vRandom, nIdCount) && info.nRandomPos == |vRandom|
    ensures Loading(infos[nIdCount := info], vRandom + [nIdCount], nIdCount + 1)
  {
    RandomGrow(vRandom, infos, nIdCount, info);
  }

  lemma LoadingCounted(infos: Infos, vRandom: seq<int>, nIdCount: int, id: int)
    requires Loading(infos, vRandom, nIdCount) && id in infos
    ensures Loading(Counted(infos, id, 1), vRandom, nIdCount)
  {}

  lemma DiskSnoc(infos: Infos, ids: seq<int>, id: int)
    requires (forall i :: 0 <= i < |ids| ==> ids[i] in infos) && id in infos
    ensures DiskInfos(infos, ids + [id]) == DiskInfos(infos, ids) + [OnDisk(infos[id])]
  {
    assert (ids + [id])[..|ids|] == ids;
  }

  lemma AddNewsSnoc(env: Env, s: State, infos: seq<Info>, n: nat, usable: bool)
    requires n < |infos|
    ensures AddNews(env, s, infos[..n + 1], usable) ==
      AddNew(env, AddNews(env, s, infos[..n], usable), infos[n], usable)
  {
    assert infos[..n + 1][..n] == infos[..n];
  }

  lemma AddTriedsSnoc(env: Env, s: State, infos: seq<Info>, n: nat)
    requires n < |infos|
    ensures AddTrieds(env, s, infos[..n + 1]) == AddTried(env, AddTrieds(env, s, infos[..n]), infos[n])
  {
    assert infos[..n + 1][..n] == infos[..n];
  }
}
