/** A file that names no IP twice loads into a consistent address manager, whatever else it says. */
module AddrManLoads {
  // The positions in the file may be for another table or make no sense, and entries may collide: what
  // is lost then is lost from all structures alike.

  import opened AddrMan
  import opened AddrManCheck
  import opened AddrManConsistency
  import opened AddrManStore
  import opened AddrManStoreProofs
  import opened Bits

  /* ---- What is asked of a file ---- */

  ghost predicate DifferentIps(infos: seq<Info>) {
    forall i, j :: 0 <= i < j < |infos| ==> infos[i].service.ip != infos[j].service.ip
  }

  // Entries hold what is on disk.
  predicate DiskEntry(info: Info) {
    info == OnDisk(info)
  }

  ghost predicate Loadable(saved: Saved) {
    && WellFormed(saved) && saved.nKey != 0 && DifferentIps(saved.news + saved.trieds)
    && (forall i :: 0 <= i < |saved.news| ==> DiskEntry(saved.news[i]))
    && (forall i :: 0 <= i < |saved.trieds| ==> DiskEntry(saved.trieds[i]))
  }

  // The times are such that the check accepts them.
  ghost predicate DiskTimes(saved: Saved) {
    && (forall i :: 0 <= i < |saved.news| ==> saved.news[i].nLastSuccess >= 0)
    && (forall i :: 0 <= i < |saved.trieds| ==> saved.trieds[i].nLastSuccess > 0)
  }

  /* ---- Half-loaded managers ---- */

  // Consistent but for the counters, which are read before the entries, and for loose entries.
  ghost predicate HalfLoaded(env: Env, s: State) {
    Partial(env, s.(nNew := |News(s.mapInfo)|, nTried := |Trieds(s.mapInfo)|), Loose(s.mapInfo), 0)
  }

  // The entry with the next id, in no table yet.
  function Grown(s: State, info: Info): (r: State) {
    s.(nIdCount := s.nIdCount + 1, mapInfo := s.mapInfo[s.nIdCount := info],
       mapAddr := s.mapAddr[info.service.ip := s.nIdCount], vRandom := s.vRandom + [s.nIdCount])
  }

  lemma LooseGrow(infos: Infos, nIdCount: int, info: Info)
    requires InfoOk(infos, nIdCount) && RefCountsOk(infos, Loose(infos))
    requires info.nRefCount == 0
    ensures var infos' := infos[nIdCount := info];
      nIdCount !in infos && InfoOk(infos', nIdCount + 1) && RefCountsOk(infos', Loose(infos'))
  {}

  lemma GrowNews(infos: Infos, id: int, info: Info)
    requires id !in infos
    ensures |News(infos[id := info])| == |News(infos)| + if info.fInTried then 0 else 1
    ensures |Trieds(infos[id := info])| == |Trieds(infos)| + if info.fInTried then 1 else 0
  {
    NewsUpdate(infos, id, info);
    assert id !in News(infos) && id !in Trieds(infos);
    assert News(infos) - {id} == News(infos) && Trieds(infos) - {id} == Trieds(infos);
  }

  lemma GrownNew(env: Env, s: State, info: Info)
    requires HalfLoaded(env, s) && info.service.ip !in s.mapAddr && info.nRandomPos == |s.vRandom|
    requires !info.fInTried && info.nRefCount == 0
    ensures HalfLoaded(env, Grown(s, info))
  {
    var id := s.nIdCount;
    LooseGrow(s.mapInfo, id, info);
    AddrGrow(s.mapAddr, s.mapInfo, id, info);
    RandomGrow(s.vRandom, s.mapInfo, id, info);
    TriedUpdate(env, s.nKey, s.vvTried, s.mapInfo, id, info);
    NewGrow(env, s.nKey, s.vvNew, s.mapInfo, id, info);
  }

  lemma GrownTried(env: Env, key: nat, vvTried: Table, infos: Infos, id: int, info: Info)
    requires TriedOk(env, key, vvTried, infos) && id !in infos && info.fInTried
    requires env.TriedSlot(key, info.service) !in vvTried
    ensures TriedOk(env, key, vvTried[env.TriedSlot(key, info.service) := id], infos[id := info])
  {}

  lemma AddTriedHalf(env: Env, s: State, info: Info)
    requires HalfLoaded(env, s) && info.service.ip !in s.mapAddr && DiskEntry(info)
    ensures HalfLoaded(env, AddTried(env, s, info))
  {
    var id, slot := s.nIdCount, env.TriedSlot(s.nKey, info.service);
    if slot !in s.vvTried {
      var placed := info.(nRandomPos := |s.vRandom|, fInTried := true);
      LooseGrow(s.mapInfo, id, placed);
      AddrGrow(s.mapAddr, s.mapInfo, id, placed);
      RandomGrow(s.vRandom, s.mapInfo, id, placed);
      GrownTried(env, s.nKey, s.vvTried, s.mapInfo, id, placed);
      NewGrow(env, s.nKey, s.vvNew, s.mapInfo, id, placed);
    }
  }

  lemma AddRefHalf(env: Env, s: State, slot: Slot, id: int)
    requires HalfLoaded(env, s) && id in s.mapInfo
    requires !s.mapInfo[id].fInTried && s.mapInfo[id].nRefCount < NEW_BUCKETS_PER_ADDRESS
    requires slot !in s.vvNew && 0 <= slot.bucket < NEW_BUCKET_COUNT
    requires slot == env.NewSlotIn(s.nKey, slot.bucket, s.mapInfo[id].service)
    ensures HalfLoaded(env, AddRef(s, slot, id))
  {
    RefKeepsPartial(env, s.(nNew := |News(s.mapInfo)|, nTried := |Trieds(s.mapInfo)|), slot, id);
    CountedNews(s.mapInfo, id, 1);
  }

  lemma AddNewIs(env: Env, s: State, info: Info, usable: bool, loose: Info, slot: Slot)
    requires loose == info.(nRandomPos := |s.vRandom|) && loose.nRefCount == 0
    requires slot == env.NewSlot(s.nKey, info.service, info.source)
    ensures AddNew(env, s, info, usable) ==
            if !usable && slot !in s.vvNew then AddRef(Grown(s, loose), slot, s.nIdCount) else Grown(s, loose)
  {
    assert info.(nRandomPos := |s.vRandom|, nRefCount := 0) == loose;
  }

  lemma AddNewHalf(env: Env, s: State, info: Info, usable: bool)
    requires HalfLoaded(env, s) && info.service.ip !in s.mapAddr && DiskEntry(info)
    ensures HalfLoaded(env, AddNew(env, s, info, usable))
  {
    var loose, slot := info.(nRandomPos := |s.vRandom|), env.NewSlot(s.nKey, info.service, info.source);
    assert loose.nRefCount == 0;
    AddNewIs(env, s, info, usable, loose, slot);
    GrownNew(env, s, loose);
    if !usable && slot !in s.vvNew {
      AddRefHalf(env, Grown(s, loose), slot, s.nIdCount);
    }
  }

  /* ---- The entries ---- */

  ghost function Ips(file: seq<Info>): (r: set<Ip>) {
    set j | 0 <= j < |file| :: file[j].service.ip
  }

  lemma IpsGrow(file: seq<Info>, n: nat)
    requires n < |file|
    ensures Ips(file[..n + 1]) == Ips(file[..n]) + {file[n].service.ip}
    ensures DifferentIps(file) ==> file[n].service.ip !in Ips(file[..n])
  {
    var more, fewer := file[..n + 1], file[..n];
    assert forall j :: 0 <= j < n ==> more[j] == fewer[j] == file[j];
    assert more[n] == file[n];
    forall ip | ip in Ips(fewer) + {file[n].service.ip}
      ensures ip in Ips(more)
    {
      var j :| 0 <= j <= n && file[j].service.ip == ip;
      assert more[j].service.ip == ip;
    }
  }

  // Every entry is one of the file's, the first n ids belong to new entries, and the counters are ahead
  // by the entries that are still to come.
  ghost predicate Tallied(s: State, file: seq<Info>, n: nat, moreNews: int, moreTrieds: int) {
    && (forall id :: id in s.mapInfo ==> s.mapInfo[id].service.ip in Ips(file))
    && (forall id :: id in s.mapInfo && id < n ==> !s.mapInfo[id].fInTried)
    && n <= s.nIdCount && s.nIdCount !in s.mapInfo
    && s.nNew == |News(s.mapInfo)| + moreNews && s.nTried == |Trieds(s.mapInfo)| + moreTrieds
  }

  lemma GrownTallied(s: State, t: State, file: seq<Info>, k: nat, n: nat, moreNews: int, moreTrieds: int, info: Info)
    requires k < |file| && Tallied(s, file[..k], n, moreNews, moreTrieds) && info.service.ip == file[k].service.ip
    requires t.nIdCount == s.nIdCount + 1 && t.mapInfo == s.mapInfo[s.nIdCount := info]
    requires t.nNew == s.nNew && t.nTried == s.nTried && t.nIdCount !in s.mapInfo
    ensures info.fInTried ==> Tallied(t, file[..k + 1], n, moreNews, moreTrieds - 1)
    ensures !info.fInTried && s.nIdCount == n ==> Tallied(t, file[..k + 1], n + 1, moreNews - 1, moreTrieds)
  {
    IpsGrow(file, k);
    GrowNews(s.mapInfo, s.nIdCount, info);
  }

  lemma FreshIp(env: Env, s: State, file: seq<Info>, n: nat, first: nat, moreNews: int, moreTrieds: int)
    requires HalfLoaded(env, s) && n < |file| && DifferentIps(file)
    requires Tallied(s, file[..n], first, moreNews, moreTrieds)
    ensures file[n].service.ip !in s.mapAddr && s.nIdCount + 1 !in s.mapInfo
  {
    IpsGrow(file, n);
  }

  lemma {:induction false} AddNewsHalf(env: Env, s: State, file: seq<Info>, n: nat, usable: bool)
    requires HalfLoaded(env, s) && Tallied(s, [], 0, s.nNew, s.nTried) && s.nIdCount == 0
    requires n <= |file| && DifferentIps(file) && forall i :: 0 <= i < n ==> DiskEntry(file[i])
    ensures var u := AddNews(env, s, file[..n], usable);
      HalfLoaded(env, u) && Tallied(u, file[..n], n, s.nNew - n, s.nTried) && u.nIdCount == n
      && u.nNew == s.nNew && u.nTried == s.nTried
  {
    if n == 0 {
      assert file[..0] == [];
    } else {
      var m := n - 1;
      var t := AddNews(env, s, file[..m], usable);
      AddNewsLast(env, s, file, m, usable);
      AddNewsHalf(env, s, file, m, usable);
      AddNewStep(env, t, file, m, usable, s.nNew - m, s.nTried);
    }
  }

  lemma AddNewsLast(env: Env, s: State, file: seq<Info>, n: nat, usable: bool)
    requires n < |file|
    ensures AddNews(env, s, file[..n + 1], usable) == AddNew(env, AddNews(env, s, file[..n], usable), file[n], usable)
  {
    assert file[..n + 1][..n] == file[..n];
  }

  lemma AddNewStep(env: Env, s: State, file: seq<Info>, n: nat, usable: bool, moreNews: int, moreTrieds: int)
    requires n < |file| && DifferentIps(file) && DiskEntry(file[n]) && s.nIdCount == n
    requires HalfLoaded(env, s) && Tallied(s, file[..n], n, moreNews, moreTrieds)
    ensures var u := AddNew(env, s, file[n], usable);
      HalfLoaded(env, u) && Tallied(u, file[..n + 1], n + 1, moreNews - 1, moreTrieds)
  {
    FreshIp(env, s, file, n, n, moreNews, moreTrieds);
    AddNewHalf(env, s, file[n], usable);
    AddNewTallied(env, s, file, n, usable, moreNews, moreTrieds);
  }

  lemma AddNewTallied(env: Env, s: State, file: seq<Info>, n: nat, usable: bool, moreNews: int, moreTrieds: int)
    requires n < |file| && DiskEntry(file[n]) && s.nIdCount == n && s.nIdCount + 1 !in s.mapInfo
    requires Tallied(s, file[..n], n, moreNews, moreTrieds)
    ensures Tallied(AddNew(env, s, file[n], usable), file[..n + 1], n + 1, moreNews - 1, moreTrieds)
  {
    var u := AddNew(env, s, file[n], usable);
    GrownTallied(s, u, file, n, n, moreNews, moreTrieds, u.mapInfo[n]);
  }

  lemma AddTriedTallied(env: Env, s: State, file: seq<Info>, k: nat, n: nat, moreTrieds: int)
    requires k < |file| && Tallied(s, file[..k], n, 0, moreTrieds) && s.nIdCount + 1 !in s.mapInfo
    ensures Tallied(AddTried(env, s, file[k]), file[..k + 1], n, 0, moreTrieds - 1)
  {
    var info := file[k].(nRandomPos := |s.vRandom|, fInTried := true);
    if env.TriedSlot(s.nKey, file[k].service) in s.vvTried {
      IpsGrow(file, k);
    } else {
      GrownTallied(s, AddTried(env, s, file[k]), file, k, n, 0, moreTrieds, info);
    }
  }

  // The entries of the tried table come after the k of the new table.
  lemma {:induction false} AddTriedsHalf(env: Env, s: State, file: seq<Info>, k: nat, end: nat, moreTrieds: int)
    requires k <= end <= |file| && DifferentIps(file) && HalfLoaded(env, s) && Tallied(s, file[..k], k, 0, moreTrieds)
    requires forall i :: k <= i < end ==> DiskEntry(file[i])
    ensures var u := AddTrieds(env, s, file[k..end]);
      HalfLoaded(env, u) && Tallied(u, file[..end], k, 0, moreTrieds - (end - k))
    decreases end
  {
    if end == k {
      assert file[k..end] == [];
    } else {
      var n := end - 1;
      AddTriedsHalf(env, s, file, k, n, moreTrieds);
      AddTriedsLast(env, s, file, k, n);
      AddTriedStep(env, AddTrieds(env, s, file[k..n]), file, n, k, moreTrieds - (n - k));
    }
  }

  lemma AddTriedsLast(env: Env, s: State, file: seq<Info>, k: nat, n: nat)
    requires k <= n < |file|
    ensures AddTrieds(env, s, file[k..n + 1]) == AddTried(env, AddTrieds(env, s, file[k..n]), file[n])
  {
    var infos := file[k..n + 1];
    assert infos[..n - k] == file[k..n] && infos[n - k] == file[n];
  }

  lemma AddTriedStep(env: Env, s: State, file: seq<Info>, k: nat, n: nat, moreTrieds: int)
    requires k < |file| && DifferentIps(file) && DiskEntry(file[k])
    requires HalfLoaded(env, s) && Tallied(s, file[..k], n, 0, moreTrieds)
    ensures var u := AddTried(env, s, file[k]);
      HalfLoaded(env, u) && Tallied(u, file[..k + 1], n, 0, moreTrieds - 1)
  {
    FreshIp(env, s, file, k, n, 0, moreTrieds);
    AddTriedHalf(env, s, file[k]);
    AddTriedTallied(env, s, file, k, n, moreTrieds);
  }

  /* ---- The positions in the new table ---- */

  lemma AddEntryHalf(env: Env, s: State, nNew: nat, file: seq<Info>, bucket: nat, index: int, usable: bool)
    requires HalfLoaded(env, s) && Tallied(s, file, nNew, 0, 0) && (usable ==> bucket < NEW_BUCKET_COUNT)
    ensures var u := AddEntry(env, s, nNew, bucket, index, usable);
      HalfLoaded(env, u) && Tallied(u, file, nNew, 0, 0) && u.nIdCount == s.nIdCount
  {
    if 0 <= index < nNew && index in s.mapInfo {
      var slot := env.NewSlotIn(s.nKey, bucket, s.mapInfo[index].service);
      if usable && slot !in s.vvNew && s.mapInfo[index].nRefCount < NEW_BUCKETS_PER_ADDRESS {
        AddRefHalf(env, s, slot, index);
        CountedNews(s.mapInfo, index, 1);
      }
    }
  }

  lemma {:induction false} AddEntriesHalf(env: Env, s: State, nNew: nat, file: seq<Info>, bucket: nat,
                                          entries: seq<int>, usable: bool)
    requires HalfLoaded(env, s) && Tallied(s, file, nNew, 0, 0) && (usable ==> bucket < NEW_BUCKET_COUNT)
    ensures var u := AddEntries(env, s, nNew, bucket, entries, usable);
      HalfLoaded(env, u) && Tallied(u, file, nNew, 0, 0)
  {
    if entries != [] {
      var n := |entries| - 1;
      AddEntriesHalf(env, s, nNew, file, bucket, entries[..n], usable);
      AddEntryHalf(env, AddEntries(env, s, nNew, bucket, entries[..n], usable), nNew, file, bucket, entries[n], usable);
    }
  }

  lemma {:induction false} AddBucketsHalf(env: Env, s: State, nNew: nat, file: seq<Info>,
                                          buckets: seq<seq<int>>, usable: bool)
    requires HalfLoaded(env, s) && Tallied(s, file, nNew, 0, 0) && (usable ==> |buckets| <= NEW_BUCKET_COUNT)
    ensures var u := AddBuckets(env, s, nNew, buckets, usable);
      HalfLoaded(env, u) && Tallied(u, file, nNew, 0, 0)
  {
    if buckets != [] {
      var n := |buckets| - 1;
      AddBucketsHalf(env, s, nNew, file, buckets[..n], usable);
      AddEntriesHalf(env, AddBuckets(env, s, nNew, buckets[..n], usable), nNew, file, n, buckets[n], usable);
    }
  }

  /* ---- Entries that found no place ---- */

  ghost function From(loose: set<int>, n: int): (r: set<int>) {
    set id | id in loose && id >= n
  }

  lemma FromMore(loose: set<int>, n: int)
    ensures From(loose, n + 1) == From(loose, n) - {n}
  {}

  // Whatever each round keeps holds at the end.
  lemma {:induction false} PrunedKeeps(s: State, n: nat, p: (State, int) -> bool)
    requires p(s, 0) && forall t, id :: p(t, id) ==> p(PrunedOne(t, id), id + 1)
    ensures p(Pruned(s, n), n)
  {
    if n > 0 {
      PrunedKeeps(s, n - 1, p);
    }
  }

  // When pruning has come to an id, the loose entries below are gone.
  lemma PrunedInv(env: Env, s: State)
    requires Partial(env, s, Loose(s.mapInfo), 0)
    ensures Inv(env, Pruned(s, s.nIdCount))
  {
    var loose := Loose(s.mapInfo);
    var p: (State, int) -> bool := (t: State, id) => Partial(env, t, From(loose, id), 0);
    assert From(loose, 0) == loose && From(loose, s.nIdCount) == {};
    forall t, id | p(t, id)
      ensures p(PrunedOne(t, id), id + 1)
    {
      PruneOne(env, t, id, loose);
    }
    PrunedKeeps(s, s.nIdCount, p);
  }

  lemma PruneOne(env: Env, s: State, id: int, loose: set<int>)
    requires Partial(env, s, From(loose, id), 0)
    ensures Partial(env, PrunedOne(s, id), From(loose, id + 1), 0) && PrunedOne(s, id).nIdCount == s.nIdCount
  {
    FromMore(loose, id);
    if id in s.mapInfo && !s.mapInfo[id].fInTried && s.mapInfo[id].nRefCount == 0 {
      DeletePartial(env, s, id, From(loose, id), 0);
      DeleteIs(s, id);
    }
  }

  /* ---- The result ---- */

  lemma StartHalf(env: Env, saved: Saved)
    requires saved.nKey != 0
    ensures HalfLoaded(env, Start(saved)) && Tallied(Start(saved), [], 0, saved.nNew, saved.nTried)
  {}

  lemma LoadedTables(env: Env, saved: Saved)
    requires Loadable(saved)
    ensures var s := Tables(env, saved);
      HalfLoaded(env, s) && Tallied(s, saved.news + saved.trieds, saved.nNew, 0, 0)
  {
    var file, n := saved.news + saved.trieds, saved.nNew;
    StartHalf(env, saved);
    assert file[..n] == saved.news && file[n..|file|] == saved.trieds && file[..|file|] == file;
    AddNewsHalf(env, Start(saved), file, n, Usable(saved));
    AddTriedsHalf(env, AddNews(env, Start(saved), saved.news, Usable(saved)), file, n, |file|, saved.nTried);
  }

  lemma {:induction false} AddNewsTimes(env: Env, s: State, infos: seq<Info>, usable: bool)
    requires TimesOk(s.mapInfo)
    requires forall i :: 0 <= i < |infos| ==> DiskEntry(infos[i]) && infos[i].nLastSuccess >= 0
    ensures TimesOk(AddNews(env, s, infos, usable).mapInfo)
  {
    if infos != [] {
      AddNewsTimes(env, s, infos[..|infos| - 1], usable);
    }
  }

  lemma {:induction false} AddTriedsTimes(env: Env, s: State, infos: seq<Info>)
    requires TimesOk(s.mapInfo)
    requires forall i :: 0 <= i < |infos| ==> DiskEntry(infos[i]) && infos[i].nLastSuccess > 0
    ensures TimesOk(AddTrieds(env, s, infos).mapInfo)
  {
    if infos != [] {
      AddTriedsTimes(env, s, infos[..|infos| - 1]);
    }
  }

  lemma {:induction false} AddEntriesTimes(env: Env, s: State, nNew: int, bucket: int, entries: seq<int>, usable: bool)
    requires TimesOk(s.mapInfo)
    ensures TimesOk(AddEntries(env, s, nNew, bucket, entries, usable).mapInfo)
  {
    if entries != [] {
      AddEntriesTimes(env, s, nNew, bucket, entries[..|entries| - 1], usable);
    }
  }

  lemma {:induction false} AddBucketsTimes(env: Env, s: State, nNew: int, buckets: seq<seq<int>>, usable: bool)
    requires TimesOk(s.mapInfo)
    ensures TimesOk(AddBuckets(env, s, nNew, buckets, usable).mapInfo)
  {
    if buckets != [] {
      var n := |buckets| - 1;
      AddBucketsTimes(env, s, nNew, buckets[..n], usable);
      AddEntriesTimes(env, AddBuckets(env, s, nNew, buckets[..n], usable), nNew, n, buckets[n], usable);
    }
  }

  lemma PrunedTimes(s: State, n: nat)
    requires TimesOk(s.mapInfo)
    ensures TimesOk(Pruned(s, n).mapInfo)
  {
    var p := (t: State, id: int) => TimesOk(t.mapInfo);
    PrunedKeeps(s, n, p);
  }

  lemma LoadTimes(env: Env, saved: Saved)
    requires Loadable(saved) && DiskTimes(saved)
    ensures TimesOk(Load(env, saved).mapInfo)
  {
    AddNewsTimes(env, Start(saved), saved.news, Usable(saved));
    AddTriedsTimes(env, AddNews(env, Start(saved), saved.news, Usable(saved)), saved.trieds);
    var s := AddBuckets(env, Tables(env, saved), saved.nNew, saved.buckets, Usable(saved));
    AddBucketsTimes(env, Tables(env, saved), saved.nNew, saved.buckets, Usable(saved));
    if s.nIdCount >= 0 {
      PrunedTimes(s, s.nIdCount);
    }
  }

  // Tried collisions, another version of the format, another number of buckets and positions that make
  // no sense are all survived.
  lemma LoadIsConsistent(env: Env, saved: Saved)
    requires Loadable(saved)
    ensures Inv(env, Load(env, saved))
    ensures DiskTimes(saved) ==> TimesOk(Load(env, saved).mapInfo)
  {
    var file := saved.news + saved.trieds;
    var s := AddBuckets(env, Tables(env, saved), saved.nNew, saved.buckets, Usable(saved));
    LoadedTables(env, saved);
    AddBucketsHalf(env, Tables(env, saved), saved.nNew, file, saved.buckets, Usable(saved));
    assert s == s.(nNew := |News(s.mapInfo)|, nTried := |Trieds(s.mapInfo)|);
    PrunedInv(env, s);
    if DiskTimes(saved) {
      LoadTimes(env, saved);
    }
  }

  // A load that fails after its first entry leaves a manager that Clear does not reset.
  lemma ClearAfterFailure(env: Env, saved: Saved, key: nat)
    requires saved.news != [] && key != 0
    ensures !Inv(env, Cleared(AddNews(env, Start(saved), saved.news[..1], Usable(saved)), key))
  {
    var s := AddNews(env, Start(saved), saved.news[..1], Usable(saved));
    AddNewsLast(env, Start(saved), saved.news, 0, Usable(saved));
    assert saved.news[..0] == [];
    assert 0 in s.mapInfo;
    ClearedInv(env, s, key);
  }

  /* ---- A file that names an IP twice ---- */

  // One bucket with entries, and n empty ones after it.
  function OneBucket(entries: seq<int>, n: nat): (r: seq<seq<int>>)
    ensures |r| == n + 1
  {
    if n == 0 then [entries] else OneBucket(entries, n - 1) + [[]]
  }

  lemma {:induction false} OneBucketIsRead(env: Env, s: State, nNew: int, entries: seq<int>, n: nat, usable: bool)
    ensures AddBuckets(env, s, nNew, OneBucket(entries, n), usable) == AddEntries(env, s, nNew, 0, entries, usable)
  {
    if n == 0 {
      assert [entries][..0] == [];
    } else {
      OneBucketIsRead(env, s, nNew, entries, n - 1, usable);
      assert OneBucket(entries, n)[..n] == OneBucket(entries, n - 1);
    }
  }

  // The same entry twice, with one position, for the first of the two.
  function Twice(key: nat, info: Info, n: nat): (r: Saved) {
    Saved(1, key, 2, 0, Xor(NEW_BUCKET_COUNT, BUCKETS_MARK), [info, info], [], OneBucket([0], n))
  }

  lemma TwiceIsWellFormed(key: nat, info: Info, n: nat)
    requires n == NEW_BUCKET_COUNT - 1
    ensures var f := Twice(key, info, n); WellFormed(f) && WithinLimits(f) && Usable(f)
  {
    XorTwice(NEW_BUCKET_COUNT, BUCKETS_MARK);
  }

  // After the entries, and after the position of the first.
  function TwoEntries(key: nat, info: Info, vvNew: Table): (r: State) {
    State(2, map[0 := info.(nRandomPos := 0, nRefCount := |vvNew|), 1 := info.(nRandomPos := 1)],
          map[info.service.ip := 1], [0, 1], 0, map[], 2, vvNew, 1, key)
  }

  lemma TwiceTables(env: Env, key: nat, info: Info, n: nat)
    requires DiskEntry(info) && n == NEW_BUCKET_COUNT - 1
    ensures Tables(env, Twice(key, info, n)) == TwoEntries(key, info, map[])
  {
    TwiceIsWellFormed(key, info, n);
    var f := Twice(key, info, n);
    var s := Start(f);
    assert f.news[..1] == [info] && [info][..0] == [];
    assert AddNews(env, s, [info], true) == AddNew(env, s, info, true);
    assert AddNews(env, s, f.news, true) == AddNew(env, AddNew(env, s, info, true), info, true);
    assert info.nRefCount == 0;
  }

  lemma OnePosition(env: Env, key: nat, info: Info, nNew: int)
    requires DiskEntry(info) && nNew == 2
    ensures AddEntries(env, TwoEntries(key, info, map[]), nNew, 0, [0], true) ==
            TwoEntries(key, info, map[env.NewSlotIn(key, 0, info.service) := 0])
  {
    var t, slot := TwoEntries(key, info, map[]), env.NewSlotIn(key, 0, info.service);
    var first := info.(nRandomPos := 0, nRefCount := 0);
    assert t.mapInfo[0] == first;
    assert AddRef(t, slot, 0).mapInfo[0] == first.(nRefCount := 1);
    assert AddEntry(env, t, nNew, 0, 0, true) == AddRef(t, slot, 0);
    assert [0][..0] == [];
  }

  lemma TwiceBuckets(env: Env, key: nat, info: Info, n: nat)
    requires DiskEntry(info) && n == NEW_BUCKET_COUNT - 1
    ensures var f := Twice(key, info, n);
      AddBuckets(env, Tables(env, f), f.nNew, f.buckets, Usable(f)) ==
      TwoEntries(key, info, map[env.NewSlotIn(key, 0, info.service) := 0])
  {
    TwiceIsWellFormed(key, info, n);
    TwiceTables(env, key, info, n);
    OneBucketIsRead(env, TwoEntries(key, info, map[]), 2, [0], n, true);
    OnePosition(env, key, info, 2);
  }

  // The first entry alone.
  function FirstEntry(key: nat, info: Info, slot: Slot): (r: State) {
    State(2, map[0 := info.(nRandomPos := 0, nRefCount := 1)], map[], [0], 0, map[], 1, map[slot := 0], 1, key)
  }

  lemma SecondIsPruned(key: nat, info: Info, slot: Slot, n: nat)
    requires DiskEntry(info) && n == 1
    ensures Pruned(TwoEntries(key, info, map[slot := 0]), n + 1) == FirstEntry(key, info, slot)
  {
    var t := TwoEntries(key, info, map[slot := 0]);
    assert Pruned(t, n - 1) == t && Pruned(t, n) == t;
    assert t.mapInfo[1].nRefCount == 0 && t.mapInfo[1].nRandomPos == |t.vRandom| - 1;
    assert Delete(t, 1).mapInfo == FirstEntry(key, info, slot).mapInfo;
    assert Delete(t, 1).mapAddr == map[];
    assert Delete(t, 1) == FirstEntry(key, info, slot);
  }

  lemma FirstIsChecked(env: Env, key: nat, info: Info)
    requires DiskEntry(info) && key != 0 && info.nLastSuccess >= 0
    ensures var s := FirstEntry(key, info, env.NewSlotIn(key, 0, info.service)); Checked(env, s) && !Inv(env, s)
  {
    var slot := env.NewSlotIn(key, 0, info.service);
    var s := FirstEntry(key, info, slot);
    assert News(s.mapInfo) == {0} && Trieds(s.mapInfo) == {} && Refs(s.vvNew, 0) == {slot};
    assert 0 in s.mapInfo && info.service.ip !in s.mapAddr;
  }

  // Pruning the second copy takes the address of the first away. The check does not see it.
  lemma TwiceLoads(env: Env, key: nat, info: Info, n: nat)
    requires DiskEntry(info) && info.nLastSuccess >= 0 && key != 0 && n == NEW_BUCKET_COUNT - 1
    ensures WellFormed(Twice(key, info, n)) && WithinLimits(Twice(key, info, n))
    ensures var s := Load(env, Twice(key, info, n));
      s.mapInfo.Keys == {0} && s.mapAddr == map[] && Checked(env, s) && !Inv(env, s)
  {
    var slot := env.NewSlotIn(key, 0, info.service);
    TwiceIsWellFormed(key, info, n);
    TwiceBuckets(env, key, info, n);
    SecondIsPruned(key, info, slot, 1);
    assert Load(env, Twice(key, info, n)) == FirstEntry(key, info, slot);
    FirstIsChecked(env, key, info);
  }
}
