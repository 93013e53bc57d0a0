/** Every operation of the address manager keeps all six structures consistent. */
module AddrManConsistency {
  import opened AddrMan

  /* ---- Sets of entries and references under a change of one entry ---- */

  lemma NewsUpdate(infos: Infos, id: int, info: Info)
    ensures News(infos[id := info]) == if info.fInTried then News(infos) - {id} else News(infos) + {id}
    ensures Trieds(infos[id := info]) == if info.fInTried then Trieds(infos) + {id} else Trieds(infos) - {id}
  {
  }

  lemma NewsRemove(infos: Infos, id: int)
    ensures News(infos - {id}) == News(infos) - {id}
    ensures Trieds(infos - {id}) == Trieds(infos) - {id}
  {
  }

  lemma RefsUpdate(vvNew: Table, slot: Slot, id: int, other: int)
    requires slot !in vvNew
    ensures |Refs(vvNew[slot := id], other)| == |Refs(vvNew, other)| + if other == id then 1 else 0
  {
    assert Refs(vvNew[slot := id], other)
        == if other == id then Refs(vvNew, other) + {slot} else Refs(vvNew, other);
  }

  lemma RefsRemove(vvNew: Table, slot: Slot, other: int)
    requires slot in vvNew
    ensures |Refs(vvNew - {slot}, other)| == |Refs(vvNew, other)| - if other == vvNew[slot] then 1 else 0
  {
    assert Refs(vvNew - {slot}, other) == Refs(vvNew, other) - {slot};
    assert slot in Refs(vvNew, other) <==> vvNew[slot] == other;
  }

  lemma HasRef(vvNew: Table, infos: Infos, slot: Slot)
    requires RefsOk(vvNew, infos) && slot in vvNew && vvNew[slot] in infos
    ensures infos[vvNew[slot]].nRefCount >= 1
  {
    RefsRemove(vvNew, slot, vvNew[slot]);
  }

  /* ---- One structure at a time ---- */

  // No table sees the difference between the two.
  ghost predicate SameInTables(infos: Infos, infos': Infos) {
    (forall id :: id in infos <==> id in infos') && forall id :: id in infos && id in infos' ==>
      && infos[id].service == infos'[id].service && infos[id].fInTried == infos'[id].fInTried
      && infos[id].nRefCount == infos'[id].nRefCount
  }

  lemma SameNews(infos: Infos, infos': Infos)
    requires SameInTables(infos, infos')
    ensures News(infos) == News(infos') && Trieds(infos) == Trieds(infos')
  {
    forall id
      ensures id in News(infos) <==> id in News(infos')
      ensures id in Trieds(infos) <==> id in Trieds(infos')
    {
      assert id in infos <==> id in infos';
    }
  }

  lemma SameTables(env: Env, key: nat, mapAddr: map<Ip, int>, vvTried: Table, vvNew: Table,
                   infos: Infos, infos': Infos)
    requires SameInTables(infos, infos')
    ensures AddrOk(mapAddr, infos) ==> AddrOk(mapAddr, infos')
    ensures TriedOk(env, key, vvTried, infos) ==> TriedOk(env, key, vvTried, infos')
    ensures NewOk(env, key, vvNew, infos) ==> NewOk(env, key, vvNew, infos')
    ensures RefsOk(vvNew, infos) ==> RefsOk(vvNew, infos')
  {
  }

  lemma TriedUpdate(env: Env, key: nat, vvTried: Table, infos: Infos, id: int, info: Info)
    requires TriedOk(env, key, vvTried, infos) && !info.fInTried && (id in infos ==> !infos[id].fInTried)
    ensures TriedOk(env, key, vvTried, infos[id := info])
    ensures TriedOk(env, key, vvTried, infos - {id})
  {
  }

  lemma NoRefs(vvNew: Table, infos: Infos, id: int)
    requires RefsOk(vvNew, infos) && id in infos && infos[id].nRefCount == 0
    ensures forall slot :: slot in vvNew ==> vvNew[slot] != id
  {
    forall slot | slot in vvNew
      ensures vvNew[slot] != id
    {
      if vvNew[slot] == id {
        HasRef(vvNew, infos, slot);
      }
    }
  }

  lemma NewGrow(env: Env, key: nat, vvNew: Table, infos: Infos, id: int, info: Info)
    requires NewOk(env, key, vvNew, infos) && RefsOk(vvNew, infos) && id !in infos && info.nRefCount == 0
    ensures NewOk(env, key, vvNew, infos[id := info]) && RefsOk(vvNew, infos[id := info])
  {
    assert Refs(vvNew, id) == {};
  }

  lemma NewShrink(env: Env, key: nat, vvNew: Table, infos: Infos, id: int)
    requires NewOk(env, key, vvNew, infos) && RefsOk(vvNew, infos)
    requires id in infos && infos[id].nRefCount == 0
    ensures NewOk(env, key, vvNew, infos - {id}) && RefsOk(vvNew, infos - {id})
  {
    NoRefs(vvNew, infos, id);
  }

  lemma CountedNewOk(env: Env, key: nat, vvNew: Table, infos: Infos, id: int, d: int)
    requires NewOk(env, key, vvNew, infos) && id in infos
    ensures NewOk(env, key, vvNew, Counted(infos, id, d))
  {
  }

  lemma UnrefRefsOk(vvNew: Table, infos: Infos, slot: Slot)
    requires RefsOk(vvNew, infos) && slot in vvNew && vvNew[slot] in infos
    ensures RefsOk(vvNew - {slot}, Counted(infos, vvNew[slot], -1))
  {
    var infos' := Counted(infos, vvNew[slot], -1);
    forall other | other in infos'
      ensures infos'[other].nRefCount == |Refs(vvNew - {slot}, other)|
    {
      assert other in infos;
      RefsRemove(vvNew, slot, other);
    }
  }

  lemma AddRefRefsOk(vvNew: Table, infos: Infos, slot: Slot, id: int)
    requires RefsOk(vvNew, infos) && slot !in vvNew && id in infos
    ensures RefsOk(vvNew[slot := id], Counted(infos, id, 1))
  {
    var infos' := Counted(infos, id, 1);
    forall other | other in infos'
      ensures infos'[other].nRefCount == |Refs(vvNew[slot := id], other)|
    {
      assert other in infos;
      RefsUpdate(vvNew, slot, id, other);
    }
  }

  lemma AddrGrow(mapAddr: map<Ip, int>, infos: Infos, id: int, info: Info)
    requires AddrOk(mapAddr, infos) && id !in infos && info.service.ip !in mapAddr
    ensures AddrOk(mapAddr[info.service.ip := id], infos[id := info])
  {
  }

  lemma AddrShrink(mapAddr: map<Ip, int>, infos: Infos, id: int)
    requires AddrOk(mapAddr, infos) && id in infos
    ensures AddrOk(mapAddr - {infos[id].service.ip}, infos - {id})
  {
  }

  lemma RandomGrow(vRandom: seq<int>, infos: Infos, id: int, info: Info)
    requires RandomOk(vRandom, infos) && id !in infos && info.nRandomPos == |vRandom|
    ensures RandomOk(vRandom + [id], infos[id := info])
  {
  }

  lemma RandomSwap(vRandom: seq<int>, infos: Infos, i: int, j: int)
    requires RandomOk(vRandom, infos) && 0 <= i < |vRandom| && 0 <= j < |vRandom| && i != j
    ensures RandomOk(SwappedRandom(vRandom, i, j), SwappedInfos(vRandom, infos, i, j))
  {
    var id1, id2 := vRandom[i], vRandom[j];
    assert id1 in infos && id2 in infos && id1 != id2;
  }

  lemma SwapSameInTables(vRandom: seq<int>, infos: Infos, i: int, j: int)
    requires 0 <= i < |vRandom| && 0 <= j < |vRandom|
    ensures SameInTables(infos, SwappedInfos(vRandom, infos, i, j))
  {
  }

  lemma SwapInfoOk(vRandom: seq<int>, infos: Infos, nIdCount: int, i: int, j: int)
    requires InfoOk(infos, nIdCount) && 0 <= i < |vRandom| && 0 <= j < |vRandom|
    ensures InfoOk(SwappedInfos(vRandom, infos, i, j), nIdCount)
  {
  }

  lemma RandomShrink(vRandom: seq<int>, infos: Infos, id: int)
    requires RandomOk(vRandom, infos) && id in infos && infos[id].nRandomPos == |vRandom| - 1
    ensures RandomOk(vRandom[..|vRandom| - 1], infos - {id})
  {
  }

  // Clearing makes a manager consistent if and only if it held nothing.
  lemma ClearedInv(env: Env, s: State, key: nat)
    requires key != 0
    ensures Inv(env, Cleared(s, key)) <==> s.mapInfo == map[] && s.mapAddr == map[]
  {
    assert (forall id :: id !in s.mapInfo) ==> s.mapInfo == map[];
    assert (forall ip :: ip !in s.mapAddr) ==> s.mapAddr == map[];
    if s.mapInfo == map[] && s.mapAddr == map[] {
      assert News(s.mapInfo) == {} && Trieds(s.mapInfo) == {};
    }
  }

  /* ---- The primitives ---- */

  lemma CreatePartial(env: Env, s: State, addr: Address, source: Ip)
    requires Inv(env, s) && addr.service.ip !in s.mapAddr
    ensures Partial(env, Create(s, addr, source), {s.nIdCount}, 1)
  {
    var id, info := s.nIdCount, NewInfo(addr, source, |s.vRandom|);
    AddrGrow(s.mapAddr, s.mapInfo, id, info);
    RandomGrow(s.vRandom, s.mapInfo, id, info);
    TriedUpdate(env, s.nKey, s.vvTried, s.mapInfo, id, info);
    NewGrow(env, s.nKey, s.vvNew, s.mapInfo, id, info);
    NewsUpdate(s.mapInfo, id, info);
    assert id !in News(s.mapInfo) && id !in Trieds(s.mapInfo);
  }

  // Two states that differ only in what no table sees.
  lemma SamePartial(env: Env, s: State, s': State, loose: set<int>, uncounted: nat)
    requires Partial(env, s, loose, uncounted) && SameInTables(s.mapInfo, s'.mapInfo)
    requires s' == s.(mapInfo := s'.mapInfo, vRandom := s'.vRandom)
    requires InfoOk(s'.mapInfo, s.nIdCount) && RandomOk(s'.vRandom, s'.mapInfo)
    ensures Partial(env, s', loose, uncounted)
  {
    SameTables(env, s.nKey, s.mapAddr, s.vvTried, s.vvNew, s.mapInfo, s'.mapInfo);
    SameNews(s.mapInfo, s'.mapInfo);
  }

  // A change of an entry that no table and no counter depends on.
  lemma SetInfoPartial(env: Env, s: State, id: int, info: Info, loose: set<int>, uncounted: nat)
    requires Partial(env, s, loose, uncounted) && id in s.mapInfo
    requires var was := s.mapInfo[id];
      && info.service == was.service && info.nRefCount == was.nRefCount
      && info.fInTried == was.fInTried && info.nRandomPos == was.nRandomPos
    ensures Partial(env, SetInfo(s, id, info), loose, uncounted)
  {
    SamePartial(env, s, SetInfo(s, id, info), loose, uncounted);
  }

  lemma SwapPartial(env: Env, s: State, i: int, j: int, loose: set<int>, uncounted: nat)
    requires Partial(env, s, loose, uncounted)
    ensures Partial(env, SwapRandom(s, i, j), loose, uncounted)
  {
    if 0 <= i < |s.vRandom| && 0 <= j < |s.vRandom| && i != j {
      RandomSwap(s.vRandom, s.mapInfo, i, j);
      SwapSameInTables(s.vRandom, s.mapInfo, i, j);
      SwapInfoOk(s.vRandom, s.mapInfo, s.nIdCount, i, j);
      SamePartial(env, s, SwapRandom(s, i, j), loose, uncounted);
    }
  }

  // Everything about an entry list from which one entry in no table is dropped.
  lemma DropTables(env: Env, key: nat, mapAddr: map<Ip, int>, vvTried: Table, vvNew: Table,
                   infos: Infos, infos': Infos, id: int)
    requires SameInTables(infos, infos') && id in infos && !infos[id].fInTried && infos[id].nRefCount == 0
    requires AddrOk(mapAddr, infos) && TriedOk(env, key, vvTried, infos)
    requires NewOk(env, key, vvNew, infos) && RefsOk(vvNew, infos)
    ensures AddrOk(mapAddr - {infos[id].service.ip}, infos' - {id})
    ensures TriedOk(env, key, vvTried, infos' - {id})
    ensures NewOk(env, key, vvNew, infos' - {id}) && RefsOk(vvNew, infos' - {id})
    ensures |News(infos' - {id})| == |News(infos)| - 1 && |Trieds(infos' - {id})| == |Trieds(infos)|
  {
    SameTables(env, key, mapAddr, vvTried, vvNew, infos, infos');
    SameNews(infos, infos');
    assert id in infos' && infos'[id].service == infos[id].service;
    AddrShrink(mapAddr, infos', id);
    TriedUpdate(env, key, vvTried, infos', id, infos'[id]);
    NewShrink(env, key, vvNew, infos', id);
    NewsRemove(infos', id);
    assert id in News(infos) && id !in Trieds(infos);
  }

  lemma DroppedPartial(env: Env, s: State, id: int, infos: Infos, vRandom: seq<int>,
                       loose: set<int>, uncounted: nat)
    requires Partial(env, s, loose, uncounted) && id in s.mapInfo && |vRandom| > 0
    requires !s.mapInfo[id].fInTried && s.mapInfo[id].nRefCount == 0
    requires SameInTables(s.mapInfo, infos) && InfoOk(infos, s.nIdCount)
    requires RandomOk(vRandom[..|vRandom| - 1], infos - {id})
    ensures Partial(env, Dropped(s, id, infos, vRandom), loose - {id}, uncounted)
  {
    DropTables(env, s.nKey, s.mapAddr, s.vvTried, s.vvNew, s.mapInfo, infos, id);
  }

  lemma SwappedRandomOk(vRandom: seq<int>, infos: Infos, id: int, pos: int, last: int)
    requires RandomOk(vRandom, infos) && id in infos && infos[id].nRandomPos == pos < last == |vRandom| - 1
    ensures RandomOk(SwappedRandom(vRandom, pos, last)[..last], SwappedInfos(vRandom, infos, pos, last) - {id})
  {
    RandomSwap(vRandom, infos, pos, last);
    RandomShrink(SwappedRandom(vRandom, pos, last), SwappedInfos(vRandom, infos, pos, last), id);
  }

  lemma SwappedDropped(env: Env, s: State, id: int, loose: set<int>, uncounted: nat)
    requires Partial(env, s, loose, uncounted) && id in s.mapInfo
    requires !s.mapInfo[id].fInTried && s.mapInfo[id].nRefCount == 0
    requires s.mapInfo[id].nRandomPos < |s.vRandom| - 1
    ensures var pos, last := s.mapInfo[id].nRandomPos, |s.vRandom| - 1;
      Partial(env, Dropped(s, id, SwappedInfos(s.vRandom, s.mapInfo, pos, last),
                           SwappedRandom(s.vRandom, pos, last)), loose - {id}, uncounted)
  {
    var pos, last := s.mapInfo[id].nRandomPos, |s.vRandom| - 1;
    var infos, vRandom := SwappedInfos(s.vRandom, s.mapInfo, pos, last), SwappedRandom(s.vRandom, pos, last);
    assert SameInTables(s.mapInfo, infos) && InfoOk(infos, s.nIdCount) by {
      SwapSameInTables(s.vRandom, s.mapInfo, pos, last);
      SwapInfoOk(s.vRandom, s.mapInfo, s.nIdCount, pos, last);
    }
    SwappedRandomOk(s.vRandom, s.mapInfo, id, pos, last);
    DroppedPartial(env, s, id, infos, vRandom, loose, uncounted);
  }

  lemma LastDropped(env: Env, s: State, id: int, loose: set<int>, uncounted: nat)
    requires Partial(env, s, loose, uncounted) && id in s.mapInfo
    requires !s.mapInfo[id].fInTried && s.mapInfo[id].nRefCount == 0
    requires s.mapInfo[id].nRandomPos == |s.vRandom| - 1
    ensures Partial(env, Dropped(s, id, s.mapInfo, s.vRandom), loose - {id}, uncounted)
  {
    assert SameInTables(s.mapInfo, s.mapInfo);
    assert RandomOk(s.vRandom[..|s.vRandom| - 1], s.mapInfo - {id}) by {
      RandomShrink(s.vRandom, s.mapInfo, id);
    }
    DroppedPartial(env, s, id, s.mapInfo, s.vRandom, loose, uncounted);
  }

  lemma DeleteIs(s: State, id: int)
    requires RandomOk(s.vRandom, s.mapInfo) && id in s.mapInfo
    ensures var pos, last := s.mapInfo[id].nRandomPos, |s.vRandom| - 1;
      && 0 <= pos <= last
      && Delete(s, id) == if pos == last then Dropped(s, id, s.mapInfo, s.vRandom)
                          else Dropped(s, id, SwappedInfos(s.vRandom, s.mapInfo, pos, last),
                                       SwappedRandom(s.vRandom, pos, last))
  {}

  lemma DeletePartial(env: Env, s: State, id: int, loose: set<int>, uncounted: nat)
    requires Partial(env, s, loose, uncounted) && id in s.mapInfo
    requires !s.mapInfo[id].fInTried && s.mapInfo[id].nRefCount == 0
    ensures Partial(env, Delete(s, id), loose - {id}, uncounted)
  {
    DeleteIs(s, id);
    if s.mapInfo[id].nRandomPos == |s.vRandom| - 1 {
      LastDropped(env, s, id, loose, uncounted);
    } else {
      SwappedDropped(env, s, id, loose, uncounted);
    }
  }

  // Which entries lose their last reference when slot is emptied.
  ghost function LooseAfter(s: State, slot: Slot, loose: set<int>): (r: set<int>)
    requires Refers(s, slot)
  {
    if s.mapInfo[s.vvNew[slot]].nRefCount == 1 then loose + {s.vvNew[slot]} else loose
  }

  lemma CountedNews(infos: Infos, id: int, d: int)
    requires id in infos
    ensures News(Counted(infos, id, d)) == News(infos) && Trieds(Counted(infos, id, d)) == Trieds(infos)
  {
  }

  lemma CountedInfoOk(infos: Infos, nIdCount: int, id: int, d: int)
    requires InfoOk(infos, nIdCount) && id in infos
    ensures InfoOk(Counted(infos, id, d), nIdCount)
  {
  }

  lemma CountedElsewhere(mapAddr: map<Ip, int>, vRandom: seq<int>, infos: Infos, id: int, d: int)
    requires AddrOk(mapAddr, infos) && RandomOk(vRandom, infos) && id in infos
    ensures AddrOk(mapAddr, Counted(infos, id, d)) && RandomOk(vRandom, Counted(infos, id, d))
  {
  }

  // Nothing but the references depends on how many of them an entry counts.
  lemma CountedTables(env: Env, key: nat, mapAddr: map<Ip, int>, vRandom: seq<int>, vvTried: Table, vvNew: Table,
                      infos: Infos, nIdCount: int, id: int, d: int)
    requires InfoOk(infos, nIdCount) && AddrOk(mapAddr, infos) && RandomOk(vRandom, infos)
    requires TriedOk(env, key, vvTried, infos) && NewOk(env, key, vvNew, infos) && id in infos && !infos[id].fInTried
    ensures var infos' := Counted(infos, id, d);
      && InfoOk(infos', nIdCount) && AddrOk(mapAddr, infos') && RandomOk(vRandom, infos')
      && TriedOk(env, key, vvTried, infos') && NewOk(env, key, vvNew, infos')
      && News(infos') == News(infos) && Trieds(infos') == Trieds(infos)
  {
    CountedInfoOk(infos, nIdCount, id, d);
    CountedElsewhere(mapAddr, vRandom, infos, id, d);
    CountedNewOk(env, key, vvNew, infos, id, d);
    TriedUpdate(env, key, vvTried, infos, id, Counted(infos, id, d)[id]);
    CountedNews(infos, id, d);
  }

  lemma AddRefNewOk(env: Env, key: nat, vvNew: Table, infos: Infos, slot: Slot, id: int)
    requires NewOk(env, key, vvNew, infos) && id in infos && !infos[id].fInTried
    requires 0 <= slot.bucket < NEW_BUCKET_COUNT && slot == env.NewSlotIn(key, slot.bucket, infos[id].service)
    ensures NewOk(env, key, vvNew[slot := id], infos)
  {}

  lemma UnrefNewOk(env: Env, key: nat, vvNew: Table, infos: Infos, slot: Slot)
    requires NewOk(env, key, vvNew, infos)
    ensures NewOk(env, key, vvNew - {slot}, infos)
  {}

  lemma UnrefPartial(env: Env, s: State, slot: Slot, loose: set<int>, uncounted: nat)
    requires Partial(env, s, loose, uncounted) && Refers(s, slot)
    ensures Partial(env, Unref(s, slot), LooseAfter(s, slot, loose), uncounted)
  {
    var id := s.vvNew[slot];
    HasRef(s.vvNew, s.mapInfo, slot);
    CountedTables(env, s.nKey, s.mapAddr, s.vRandom, s.vvTried, s.vvNew, s.mapInfo, s.nIdCount, id, -1);
    UnrefRefsOk(s.vvNew, s.mapInfo, slot);
    UnrefNewOk(env, s.nKey, s.vvNew, Counted(s.mapInfo, id, -1), slot);
  }

  lemma AddRefPartial(env: Env, s: State, slot: Slot, id: int, loose: set<int>, uncounted: nat)
    requires Partial(env, s, loose, uncounted) && id in s.mapInfo
    requires !s.mapInfo[id].fInTried && s.mapInfo[id].nRefCount < NEW_BUCKETS_PER_ADDRESS
    requires slot !in s.vvNew && 0 <= slot.bucket < NEW_BUCKET_COUNT
    requires slot == env.NewSlotIn(s.nKey, slot.bucket, s.mapInfo[id].service)
    ensures Partial(env, AddRef(s, slot, id), loose - {id}, uncounted)
  {
    CountedTables(env, s.nKey, s.mapAddr, s.vRandom, s.vvTried, s.vvNew, s.mapInfo, s.nIdCount, id, 1);
    AddRefRefsOk(s.vvNew, s.mapInfo, slot, id);
    AddRefNewOk(env, s.nKey, s.vvNew, Counted(s.mapInfo, id, 1), slot, id);
  }
}
