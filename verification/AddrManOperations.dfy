/** The address manager's operations keep the invariant, alone and over whole runs. */
module AddrManOperations {
  import opened AddrMan
  import opened AddrManConsistency

  // Other entries survive an operation up to their place in the random order.
  ghost predicate Survives(s: State, s': State, id: int) {
    && id in s.mapInfo && id in s'.mapInfo
    && s'.mapInfo[id] == s.mapInfo[id].(nRandomPos := s'.mapInfo[id].nRandomPos)
  }

  lemma DeleteFrame(s: State, id: int, other: int)
    requires other in s.mapInfo && other != id
    ensures Survives(s, Delete(s, id), other)
    ensures Delete(s, id).vvNew == s.vvNew && Delete(s, id).vvTried == s.vvTried && Delete(s, id).nKey == s.nKey
  {
  }

  lemma ClearNewFrame(s: State, slot: Slot, other: int)
    requires other in s.mapInfo && (slot in s.vvNew ==> Refers(s, slot) && s.vvNew[slot] != other)
    ensures Survives(s, ClearNew(s, slot), other)
    ensures ClearNew(s, slot).vvNew == s.vvNew - {slot}
    ensures ClearNew(s, slot).vvTried == s.vvTried && ClearNew(s, slot).nKey == s.nKey
  {
    if Refers(s, slot) {
      DeleteFrame(Unref(s, slot), s.vvNew[slot], other);
    } else {
      assert s.vvNew - {slot} == s.vvNew;
    }
  }

  lemma NotLoose(env: Env, s: State, slot: Slot, loose: set<int>, uncounted: nat)
    requires Partial(env, s, loose, uncounted) && slot in s.vvNew
    ensures Refers(s, slot) && s.vvNew[slot] !in loose && s.mapInfo[s.vvNew[slot]].nRefCount >= 1
  {
    HasRef(s.vvNew, s.mapInfo, slot);
  }

  lemma ClearNewPartial(env: Env, s: State, slot: Slot, loose: set<int>, uncounted: nat)
    requires Partial(env, s, loose, uncounted)
    ensures Partial(env, ClearNew(s, slot), loose, uncounted)
  {
    if slot in s.vvNew {
      var id := s.vvNew[slot];
      NotLoose(env, s, slot, loose, uncounted);
      UnrefPartial(env, s, slot, loose, uncounted);
      if s.mapInfo[id].nRefCount == 1 {
        DeletePartial(env, Unref(s, slot), id, loose + {id}, uncounted);
        assert loose + {id} - {id} == loose;
      }
    }
  }

  /* ---- Good: from new to tried, and back for whoever was in the way ---- */

  // Partway through the sweep the entry may have lost its last reference.
  ghost predicate SweptOk(env: Env, t: State, id: int) {
    id in t.mapInfo && Partial(env, t, if t.mapInfo[id].nRefCount == 0 then {id} else {}, 0)
  }

  // The sweep changes nothing but the entry's count and the new table.
  ghost predicate SweptFrame(s: State, t: State, id: int) {
    && id in s.mapInfo && id in t.mapInfo
    && t.mapInfo == s.mapInfo[id := s.mapInfo[id].(nRefCount := t.mapInfo[id].nRefCount)]
    && t == s.(mapInfo := t.mapInfo, vvNew := t.vvNew)
  }

  lemma {:induction false} SweepFrame(env: Env, s: State, id: int, n: nat)
    requires id in s.mapInfo
    ensures SweptFrame(s, Sweep(env, s, id, n), id)
  {
    if n > 0 {
      SweepFrame(env, s, id, n - 1);
    }
  }

  lemma UnrefHit(env: Env, t: State, slot: Slot, id: int)
    requires SweptOk(env, t, id) && slot in t.vvNew && t.vvNew[slot] == id
    ensures SweptOk(env, Unref(t, slot), id)
  {
    var loose := if t.mapInfo[id].nRefCount == 0 then {id} else {};
    NotLoose(env, t, slot, loose, 0);
    UnrefPartial(env, t, slot, loose, 0);
  }

  lemma SweepStarts(env: Env, s: State, id: int)
    requires Inv(env, s) && id in s.mapInfo && !s.mapInfo[id].fInTried
    ensures SweptOk(env, s, id)
  {
  }

  lemma SweepOneOk(env: Env, t: State, id: int, bucket: int)
    requires SweptOk(env, t, id)
    ensures SweptOk(env, SweepOne(env, t, id, bucket), id)
  {
    var slot := env.NewSlotIn(t.nKey, bucket, t.mapInfo[id].service);
    if slot in t.vvNew && t.vvNew[slot] == id {
      UnrefHit(env, t, slot, id);
    }
  }

  // What one round keeps, the sweep keeps.
  lemma {:induction false} SweepKeeps(env: Env, s: State, id: int, n: nat, p: State -> bool)
    requires p(s) && forall t, bucket :: p(t) ==> p(SweepOne(env, t, id, bucket))
    ensures p(Sweep(env, s, id, n))
  {
    if n > 0 {
      SweepKeeps(env, s, id, n - 1, p);
    }
  }

  lemma SweepPartial(env: Env, s: State, id: int, n: nat)
    requires SweptOk(env, s, id)
    ensures SweptOk(env, Sweep(env, s, id, n), id)
  {
    var p := t => SweptOk(env, t, id);
    forall t, bucket | p(t)
      ensures p(SweepOne(env, t, id, bucket))
    {
      SweepOneOk(env, t, id, bucket);
    }
    SweepKeeps(env, s, id, n, p);
  }

  // An entry has at most one reference in a bucket, at its own position there; so after n rounds
  // none of its references is in the first n buckets.
  lemma {:induction false} SweepSlots(env: Env, s: State, id: int, n: nat)
    requires NewOk(env, s.nKey, s.vvNew, s.mapInfo) && id in s.mapInfo
    ensures SweptFrame(s, Sweep(env, s, id, n), id)
    ensures forall slot :: slot in Sweep(env, s, id, n).vvNew ==>
      slot in s.vvNew && Sweep(env, s, id, n).vvNew[slot] == s.vvNew[slot]
    ensures forall slot :: slot in Sweep(env, s, id, n).vvNew && s.vvNew[slot] == id ==> slot.bucket >= n
  {
    SweepFrame(env, s, id, n);
    if n > 0 {
      SweepSlots(env, s, id, n - 1);
    }
  }

  // The whole sweep leaves the entry without references, so the assertion after it holds.
  lemma SweepClears(env: Env, s: State, id: int)
    requires Inv(env, s) && id in s.mapInfo && !s.mapInfo[id].fInTried
    ensures var t := Sweep(env, s, id, NEW_BUCKET_COUNT);
      SweptFrame(s, t, id) && Partial(env, t, {id}, 0) && t.mapInfo[id].nRefCount == 0
  {
    SweepStarts(env, s, id);
    SweepPartial(env, s, id, NEW_BUCKET_COUNT);
    SweepSlots(env, s, id, NEW_BUCKET_COUNT);
    var t := Sweep(env, s, id, NEW_BUCKET_COUNT);
    assert Refs(t.vvNew, id) == {};
  }

  // A tried entry has no references, so demoting it leaves it loose and uncounted.
  lemma DemotePartial(env: Env, s: State, slot: Slot, loose: set<int>, uncounted: nat)
    requires Partial(env, s, loose, uncounted) && slot in s.vvTried && s.vvTried[slot] in s.mapInfo
    ensures Partial(env, Demoted(s, slot), loose + {s.vvTried[slot]}, uncounted + 1)
    ensures Demoted(s, slot).mapInfo[s.vvTried[slot]].nRefCount == 0
  {
    var id, t := s.vvTried[slot], Demoted(s, slot);
    assert s.mapInfo[id].fInTried;
    assert s.mapInfo[id].nRefCount == 0 by {
      assert Refs(s.vvNew, id) == {};
    }
    DemoteCounts(s.mapInfo, s.nIdCount, id, loose);
    DemoteTables(env, s.nKey, s.mapAddr, s.vRandom, s.vvTried, s.vvNew, s.mapInfo, slot);
  }

  lemma DemoteCounts(infos: Infos, nIdCount: int, id: int, loose: set<int>)
    requires InfoOk(infos, nIdCount) && RefCountsOk(infos, loose)
    requires id in infos && infos[id].fInTried && infos[id].nRefCount == 0
    ensures var infos' := infos[id := infos[id].(fInTried := false)];
      && InfoOk(infos', nIdCount) && RefCountsOk(infos', loose + {id})
      && |Trieds(infos')| == |Trieds(infos)| - 1 && |News(infos')| == |News(infos)| + 1
  {
    NewsUpdate(infos, id, infos[id].(fInTried := false));
    assert id in Trieds(infos) && id !in News(infos);
  }

  lemma DemoteTables(env: Env, key: nat, mapAddr: map<Ip, int>, vRandom: seq<int>, vvTried: Table, vvNew: Table,
                     infos: Infos, slot: Slot)
    requires slot in vvTried && vvTried[slot] in infos && infos[vvTried[slot]].fInTried
    requires AddrOk(mapAddr, infos) && RandomOk(vRandom, infos) && TriedOk(env, key, vvTried, infos)
    requires NewOk(env, key, vvNew, infos) && RefsOk(vvNew, infos)
    ensures var infos' := infos[vvTried[slot] := infos[vvTried[slot]].(fInTried := false)];
      && AddrOk(mapAddr, infos') && RandomOk(vRandom, infos') && TriedOk(env, key, vvTried - {slot}, infos')
      && NewOk(env, key, vvNew, infos') && RefsOk(vvNew, infos')
  {
    var id := vvTried[slot];
    var infos' := infos[id := infos[id].(fInTried := false)];
    assert AddrOk(mapAddr, infos') && RandomOk(vRandom, infos');
    assert TriedOk(env, key, vvTried - {slot}, infos');
  }

  lemma PromotePartial(env: Env, s: State, id: int)
    requires Partial(env, s, {id}, 1) && id in s.mapInfo && !s.mapInfo[id].fInTried
    requires env.TriedSlot(s.nKey, s.mapInfo[id].service) !in s.vvTried
    ensures Inv(env, Promote(s, env.TriedSlot(s.nKey, s.mapInfo[id].service), id))
  {
    PromoteCounts(s.mapInfo, s.nIdCount, id);
    NoRefs(s.vvNew, s.mapInfo, id);
    PromoteTables(env, s.nKey, s.mapAddr, s.vRandom, s.vvTried, s.vvNew, s.mapInfo, id);
  }

  lemma PromoteCounts(infos: Infos, nIdCount: int, id: int)
    requires InfoOk(infos, nIdCount) && RefCountsOk(infos, {id})
    requires id in infos && !infos[id].fInTried
    ensures infos[id].nRefCount == 0
    ensures var infos' := infos[id := infos[id].(fInTried := true)];
      && InfoOk(infos', nIdCount) && RefCountsOk(infos', {})
      && |Trieds(infos')| == |Trieds(infos)| + 1 && |News(infos')| == |News(infos)| - 1
  {
    NewsUpdate(infos, id, infos[id].(fInTried := true));
    assert id !in Trieds(infos) && id in News(infos);
  }

  lemma PromoteTables(env: Env, key: nat, mapAddr: map<Ip, int>, vRandom: seq<int>, vvTried: Table, vvNew: Table,
                      infos: Infos, id: int)
    requires id in infos && !infos[id].fInTried && env.TriedSlot(key, infos[id].service) !in vvTried
    requires forall slot :: slot in vvNew ==> vvNew[slot] != id
    requires AddrOk(mapAddr, infos) && RandomOk(vRandom, infos) && TriedOk(env, key, vvTried, infos)
    requires NewOk(env, key, vvNew, infos) && RefsOk(vvNew, infos)
    ensures var infos' := infos[id := infos[id].(fInTried := true)];
      && AddrOk(mapAddr, infos') && RandomOk(vRandom, infos')
      && TriedOk(env, key, vvTried[env.TriedSlot(key, infos[id].service) := id], infos')
      && NewOk(env, key, vvNew, infos') && RefsOk(vvNew, infos')
  {
  }

  lemma RecountPartial(env: Env, s: State, nNew: int, loose: set<int>, uncounted: nat)
    requires Partial(env, s, loose, uncounted) && s.nNew + uncounted >= nNew
    ensures Partial(env, s.(nNew := nNew), loose, s.nNew + uncounted - nNew)
  {
  }

  // Giving a loose, uncounted entry its first reference makes it an ordinary new entry again.
  lemma ReplacePartial(env: Env, s: State, slot: Slot, id: int, loose: set<int>, uncounted: nat)
    requires Partial(env, s, loose + {id}, uncounted + 1) && id in s.mapInfo && id !in loose
    requires !s.mapInfo[id].fInTried && s.mapInfo[id].nRefCount == 0
    requires slot !in s.vvNew && 0 <= slot.bucket < NEW_BUCKET_COUNT
    requires slot == env.NewSlotIn(s.nKey, slot.bucket, s.mapInfo[id].service)
    ensures Partial(env, AddRef(s, slot, id).(nNew := s.nNew + 1), loose, uncounted)
  {
    AddRefPartial(env, s, slot, id, loose + {id}, uncounted + 1);
    assert loose + {id} - {id} == loose;
    RecountPartial(env, AddRef(s, slot, id), s.nNew + 1, loose, uncounted + 1);
  }

  // Clearing a slot never touches an entry that is in no table.
  lemma LooseSurvives(env: Env, s: State, slot: Slot, id: int, loose: set<int>, uncounted: nat)
    requires Partial(env, s, loose, uncounted) && id in loose && id in s.mapInfo
    ensures Survives(s, ClearNew(s, slot), id)
    ensures ClearNew(s, slot).vvNew == s.vvNew - {slot}
    ensures ClearNew(s, slot).vvTried == s.vvTried && ClearNew(s, slot).nKey == s.nKey
  {
    assert slot in s.vvNew ==> Refers(s, slot) && s.vvNew[slot] != id by {
      if slot in s.vvNew {
        NotLoose(env, s, slot, loose, uncounted);
      }
    }
    ClearNewFrame(s, slot, id);
  }

  lemma EvictFromNew(env: Env, out: State, id: int, slot: Slot, loose: set<int>, uncounted: nat)
    requires Partial(env, out, loose + {id}, uncounted + 1) && id in out.mapInfo && id !in loose
    requires !out.mapInfo[id].fInTried && out.mapInfo[id].nRefCount == 0
    requires slot == env.NewSlotIn(out.nKey, slot.bucket, out.mapInfo[id].service) &&
      0 <= slot.bucket < NEW_BUCKET_COUNT
    ensures var cleared := ClearNew(out, slot);
      Partial(env, AddRef(cleared, slot, id).(nNew := cleared.nNew + 1), loose, uncounted)
  {
    var cleared := ClearNew(out, slot);
    assert Survives(out, cleared, id) && slot !in cleared.vvNew && cleared.nKey == out.nKey by {
      LooseSurvives(env, out, slot, id, loose + {id}, uncounted + 1);
    }
    assert Partial(env, cleared, loose + {id}, uncounted + 1) by {
      ClearNewPartial(env, out, slot, loose + {id}, uncounted + 1);
    }
    ReplacePartial(env, cleared, slot, id, loose, uncounted);
  }

  lemma EvictPartial(env: Env, s: State, slot: Slot, loose: set<int>, uncounted: nat)
    requires Partial(env, s, loose, uncounted) && slot in s.vvTried && s.vvTried[slot] !in loose
    ensures Partial(env, Evict(env, s, slot), loose, uncounted)
  {
    var id := s.vvTried[slot];
    var out := Demoted(s, slot);
    assert Partial(env, out, loose + {id}, uncounted + 1) && out.mapInfo[id].nRefCount == 0 by {
      DemotePartial(env, s, slot, loose, uncounted);
    }
    EvictFromNew(env, out, id, env.NewSlot(s.nKey, s.mapInfo[id].service, s.mapInfo[id].source), loose, uncounted);
  }

  lemma EvictFrame(env: Env, s: State, slot: Slot, other: int, loose: set<int>, uncounted: nat)
    requires Partial(env, s, loose, uncounted) && slot in s.vvTried && s.vvTried[slot] !in loose
    requires other in loose && other in s.mapInfo
    ensures Survives(s, Evict(env, s, slot), other)
    ensures Evict(env, s, slot).vvTried == s.vvTried - {slot} && Evict(env, s, slot).nKey == s.nKey
  {
    var id := s.vvTried[slot];
    var out := Demoted(s, slot);
    var newSlot := env.NewSlot(s.nKey, s.mapInfo[id].service, s.mapInfo[id].source);
    DemotePartial(env, s, slot, loose, uncounted);
    LooseSurvives(env, out, newSlot, other, loose + {id}, uncounted + 1);
  }

  lemma MakeTriedEvicts(env: Env, s: State, id: int, slot: Slot)
    requires Partial(env, s, {id}, 1) && id in s.mapInfo && !s.mapInfo[id].fInTried
    ensures Partial(env, Evict(env, s, slot), {id}, 1) && Survives(s, Evict(env, s, slot), id)
    ensures slot !in Evict(env, s, slot).vvTried && Evict(env, s, slot).nKey == s.nKey
  {
    if slot in s.vvTried {
      TriedIsInfo(env, s, slot, {id}, 1);
      EvictPartial(env, s, slot, {id}, 1);
      EvictFrame(env, s, slot, id, {id}, 1);
    }
  }

  ghost predicate InTried(env: Env, s: State, id: int) {
    && id in s.mapInfo && s.mapInfo[id].fInTried
    && var slot := env.TriedSlot(s.nKey, s.mapInfo[id].service); slot in s.vvTried && s.vvTried[slot] == id
  }

  // The entry of a demoted address has exactly one reference, where its own source puts it.
  ghost predicate InNewOnce(env: Env, s: State, id: int) {
    && id in s.mapInfo && !s.mapInfo[id].fInTried && s.mapInfo[id].nRefCount == 1
    && var slot := env.NewSlot(s.nKey, s.mapInfo[id].service, s.mapInfo[id].source);
       slot in s.vvNew && s.vvNew[slot] == id
  }

  lemma EvictMoves(env: Env, s: State, slot: Slot, loose: set<int>, uncounted: nat)
    requires Partial(env, s, loose, uncounted) && slot in s.vvTried && s.vvTried[slot] !in loose
    ensures InNewOnce(env, Evict(env, s, slot), s.vvTried[slot])
    ensures Evict(env, s, slot).nKey == s.nKey
  {
    var id := s.vvTried[slot];
    var out := Demoted(s, slot);
    DemotePartial(env, s, slot, loose, uncounted);
    var newSlot := env.NewSlot(s.nKey, s.mapInfo[id].service, s.mapInfo[id].source);
    LooseSurvives(env, out, newSlot, id, loose + {id}, uncounted + 1);
  }

  // The entry as it is when its tried slot has been made free.
  ghost predicate ReadyToPromote(s: State, room: State, id: int, slot: Slot) {
    && id in s.mapInfo && id in room.mapInfo
    && room.mapInfo[id].service == s.mapInfo[id].service && room.mapInfo[id].nLastSuccess == s.mapInfo[id].nLastSuccess
    && !room.mapInfo[id].fInTried && slot !in room.vvTried && room.nKey == s.nKey
  }

  // The state between the sweep and the eviction.
  ghost predicate SweptOut(env: Env, s: State, out: State, id: int) {
    SweptFrame(s, out.(nNew := s.nNew), id) && Partial(env, out, {id}, 1)
  }

  lemma SweepLeadsOut(env: Env, s: State, id: int)
    requires Inv(env, s) && id in s.mapInfo && !s.mapInfo[id].fInTried
    ensures var swept := Sweep(env, s, id, NEW_BUCKET_COUNT); SweptOut(env, s, swept.(nNew := swept.nNew - 1), id)
  {
    SweepClears(env, s, id);
    var swept := Sweep(env, s, id, NEW_BUCKET_COUNT);
    RecountPartial(env, swept, swept.nNew - 1, {id}, 0);
  }

  lemma OutLeadsToRoom(env: Env, s: State, out: State, id: int, slot: Slot)
    requires SweptOut(env, s, out, id) && !s.mapInfo[id].fInTried
    ensures Partial(env, Evict(env, out, slot), {id}, 1) && ReadyToPromote(s, Evict(env, out, slot), id, slot)
  {
    MakeTriedEvicts(env, out, id, slot);
  }

  lemma OutMoves(env: Env, s: State, out: State, id: int, slot: Slot)
    requires SweptOut(env, s, out, id) && !s.mapInfo[id].fInTried && slot in s.vvTried
    ensures s.vvTried[slot] != id && InNewOnce(env, Evict(env, out, slot), s.vvTried[slot])
  {
    TriedIsInfo(env, out, slot, {id}, 1);
    EvictMoves(env, out, slot, {id}, 1);
  }

  lemma MadeRoomPartial(env: Env, s: State, id: int, slot: Slot)
    requires Inv(env, s) && id in s.mapInfo && !s.mapInfo[id].fInTried
    ensures Partial(env, MadeRoom(env, s, id, slot), {id}, 1)
    ensures ReadyToPromote(s, MadeRoom(env, s, id, slot), id, slot)
  {
    SweepLeadsOut(env, s, id);
    var swept := Sweep(env, s, id, NEW_BUCKET_COUNT);
    OutLeadsToRoom(env, s, swept.(nNew := swept.nNew - 1), id, slot);
  }

  lemma MadeRoomMoves(env: Env, s: State, id: int, slot: Slot)
    requires Inv(env, s) && id in s.mapInfo && !s.mapInfo[id].fInTried && slot in s.vvTried
    ensures s.vvTried[slot] != id && InNewOnce(env, MadeRoom(env, s, id, slot), s.vvTried[slot])
  {
    SweepLeadsOut(env, s, id);
    var swept := Sweep(env, s, id, NEW_BUCKET_COUNT);
    OutMoves(env, s, swept.(nNew := swept.nNew - 1), id, slot);
  }

  lemma MakeTriedInv(env: Env, s: State, id: int)
    requires Inv(env, s) && id in s.mapInfo && !s.mapInfo[id].fInTried
    ensures Inv(env, MakeTried(env, s, id))
  {
    var slot := env.TriedSlot(s.nKey, s.mapInfo[id].service);
    MadeRoomPartial(env, s, id, slot);
    PromotePartial(env, MadeRoom(env, s, id, slot), id);
  }

  lemma TriedIsInfo(env: Env, s: State, slot: Slot, loose: set<int>, uncounted: nat)
    requires Partial(env, s, loose, uncounted) && slot in s.vvTried
    ensures s.vvTried[slot] in s.mapInfo && s.mapInfo[s.vvTried[slot]].fInTried
    ensures forall id :: id in loose && id in s.mapInfo && !s.mapInfo[id].fInTried ==> s.vvTried[slot] != id
  {
  }

  // The entry Good has given its times, before it is moved.
  function Succeeded(s: State, id: int, nTime: int): (r: State)
    requires id in s.mapInfo
  {
    SetInfo(s.(nLastGood := nTime), id, s.mapInfo[id].(nLastSuccess := nTime, nLastTry := nTime, nAttempts := 0))
  }

  lemma GoodIs(env: Env, s: State, service: Service, nTime: int)
    requires Matches(s, service)
    ensures var id := s.mapAddr[service.ip];
      Good(env, s, service, nTime) ==
      if s.mapInfo[id].fInTried then Succeeded(s, id, nTime) else MakeTried(env, Succeeded(s, id, nTime), id)
  {}

  lemma SucceededInv(env: Env, s: State, id: int, nTime: int)
    requires Inv(env, s) && id in s.mapInfo
    ensures Inv(env, Succeeded(s, id, nTime))
  {
    var t := s.(nLastGood := nTime);
    assert Inv(env, t);
    SetInfoPartial(env, t, id, Succeeded(s, id, nTime).mapInfo[id], {}, 0);
  }

  lemma GoodInv(env: Env, s: State, service: Service, nTime: int)
    requires Inv(env, s)
    ensures Inv(env, Good(env, s, service, nTime))
  {
    if Matches(s, service) {
      var id := s.mapAddr[service.ip];
      GoodIs(env, s, service, nTime);
      SucceededInv(env, s, id, nTime);
      if !s.mapInfo[id].fInTried {
        MakeTriedInv(env, Succeeded(s, id, nTime), id);
      }
    } else {
      assert Partial(env, s.(nLastGood := nTime), {}, 0);
    }
  }

  /* ---- Add ---- */

  // Entry id is either an ordinary new entry or the one loose entry; Place leaves none loose.
  lemma PlacePartial(env: Env, s: State, id: int, source: Ip, now: int, loose: set<int>)
    requires Partial(env, s, loose, 0) && id in s.mapInfo && !s.mapInfo[id].fInTried
    requires loose <= {id} && (id in loose <==> s.mapInfo[id].nRefCount == 0)
    requires s.mapInfo[id].nRefCount < NEW_BUCKETS_PER_ADDRESS
    ensures Inv(env, Place(env, s, id, source, now))
  {
    var slot := env.NewSlot(s.nKey, s.mapInfo[id].service, source);
    if slot in s.vvNew && s.vvNew[slot] == id {
      NotLoose(env, s, slot, loose, 0);
      assert loose == {};
    } else {
      if slot in s.vvNew {
        NotLoose(env, s, slot, loose, 0);
      }
      if slot !in s.vvNew || Overwrites(s.mapInfo[s.vvNew[slot]], s.mapInfo[id], now) {
        PlaceOver(env, s, id, slot, loose);
      } else if s.mapInfo[id].nRefCount == 0 {
        DeletePartial(env, s, id, loose, 0);
        assert loose - {id} == {};
      } else {
        assert loose == {};
      }
    }
  }

  lemma PlaceOver(env: Env, s: State, id: int, slot: Slot, loose: set<int>)
    requires Partial(env, s, loose, 0) && id in s.mapInfo && !s.mapInfo[id].fInTried
    requires loose <= {id} && s.mapInfo[id].nRefCount < NEW_BUCKETS_PER_ADDRESS
    requires slot in s.vvNew ==> Refers(s, slot) && s.vvNew[slot] != id
    requires slot == env.NewSlotIn(s.nKey, slot.bucket, s.mapInfo[id].service) && 0 <= slot.bucket < NEW_BUCKET_COUNT
    ensures Inv(env, AddRef(ClearNew(s, slot), slot, id))
  {
    var cleared := ClearNew(s, slot);
    assert Partial(env, cleared, loose, 0) by {
      ClearNewPartial(env, s, slot, loose, 0);
    }
    assert Survives(s, cleared, id) && slot !in cleared.vvNew && cleared.nKey == s.nKey by {
      ClearNewFrame(s, slot, id);
    }
    AddRefPartial(env, cleared, slot, id, loose, 0);
    assert loose - {id} == {};
  }

  lemma CreatedPartial(env: Env, s: State, addr: Address, source: Ip, penalty: int)
    requires Inv(env, s) && !Known(s, addr.service.ip)
    ensures Partial(env, Created(s, addr, source, penalty), {s.nIdCount}, 0)
    ensures s.nIdCount in Created(s, addr, source, penalty).mapInfo
    ensures var info := Created(s, addr, source, penalty).mapInfo[s.nIdCount];
      !info.fInTried && info.nRefCount == 0
  {
    var t := Create(s, Aged(addr, penalty), source);
    assert Partial(env, t, {s.nIdCount}, 1) by {
      CreatePartial(env, s, Aged(addr, penalty), source);
    }
    RecountPartial(env, t, s.nNew + 1, {s.nIdCount}, 1);
  }

  lemma AddInv(env: Env, s: State, addr: Address, source: Ip, penalty: int, now: int, lucky: bool)
    requires Inv(env, s)
    ensures Inv(env, Add(env, s, addr, source, penalty, now, lucky))
  {
    if env.routable(addr.service.ip) {
      if Known(s, addr.service.ip) {
        var id := s.mapAddr[addr.service.ip];
        var info := Refreshed(s.mapInfo[id], addr, penalty, now);
        SetInfoPartial(env, s, id, info, {}, 0);
        if WantsRef(info, addr, lucky) {
          PlacePartial(env, SetInfo(s, id, info), id, source, now, {});
        }
      } else {
        CreatedPartial(env, s, addr, source, penalty);
        PlacePartial(env, Created(s, addr, source, penalty), s.nIdCount, source, now, {s.nIdCount});
      }
    }
  }

  /* ---- The rest ---- */

  lemma AttemptInv(env: Env, s: State, service: Service, nTime: int)
    requires Inv(env, s)
    ensures Inv(env, Attempt(s, service, nTime))
  {
    if Attempt(s, service, nTime) != s {
      var id := s.mapAddr[service.ip];
      SetInfoPartial(env, s, id, Attempt(s, service, nTime).mapInfo[id], {}, 0);
    }
  }

  lemma ConnectedInv(env: Env, s: State, service: Service, nTime: int)
    requires Inv(env, s)
    ensures Inv(env, Connected(s, service, nTime))
  {
    if Connected(s, service, nTime) != s {
      var id := s.mapAddr[service.ip];
      SetInfoPartial(env, s, id, Connected(s, service, nTime).mapInfo[id], {}, 0);
    }
  }

  lemma SetServicesInv(env: Env, s: State, service: Service, nServices: Services)
    requires Inv(env, s)
    ensures Inv(env, SetServices(s, service, nServices))
  {
    if SetServices(s, service, nServices) != s {
      var id := s.mapAddr[service.ip];
      SetInfoPartial(env, s, id, SetServices(s, service, nServices).mapInfo[id], {}, 0);
    }
  }

  /* ---- What Good and Add achieve ---- */

  // Good's search through the new buckets always finds one that holds the entry, so its bail-out
  // for "no bucket is found" is unreachable.
  lemma BucketIsFound(env: Env, s: State, id: int) returns (bucket: int)
    requires Inv(env, s) && id in s.mapInfo && !s.mapInfo[id].fInTried
    ensures 0 <= bucket < NEW_BUCKET_COUNT
    ensures var slot := env.NewSlotIn(s.nKey, bucket, s.mapInfo[id].service); slot in s.vvNew && s.vvNew[slot] == id
  {
    assert |Refs(s.vvNew, id)| >= 1;
    var slot :| slot in Refs(s.vvNew, id);
    bucket := slot.bucket;
  }

  // Marking a known new address good puts it into the tried table, and whoever had its place there
  // goes back to the new table instead of being lost.
  lemma GoodMovesToTried(env: Env, s: State, service: Service, nTime: int)
    requires Inv(env, s)
    requires service.ip in s.mapAddr && s.mapInfo[s.mapAddr[service.ip]].service == service
    requires !s.mapInfo[s.mapAddr[service.ip]].fInTried
    ensures var id, t, slot := s.mapAddr[service.ip], Good(env, s, service, nTime), env.TriedSlot(s.nKey, service);
      && InTried(env, t, id)
      && (slot in s.vvTried ==> InNewOnce(env, t, s.vvTried[slot]))
  {
    var id := s.mapAddr[service.ip];
    GoodIs(env, s, service, nTime);
    SucceededInv(env, s, id, nTime);
    MakeTriedMoves(env, Succeeded(s, id, nTime), id);
  }

  lemma MakeTriedMoves(env: Env, s: State, id: int)
    requires Inv(env, s) && id in s.mapInfo && !s.mapInfo[id].fInTried
    ensures var t, slot := MakeTried(env, s, id), env.TriedSlot(s.nKey, s.mapInfo[id].service);
      && InTried(env, t, id)
      && (slot in s.vvTried ==> InNewOnce(env, t, s.vvTried[slot]))
  {
    var slot := env.TriedSlot(s.nKey, s.mapInfo[id].service);
    MadeRoomPartial(env, s, id, slot);
    if slot in s.vvTried {
      MadeRoomMoves(env, s, id, slot);
    }
  }

  function AddReturns(env: Env, s: State, addr: Address): (r: bool) {
    env.routable(addr.service.ip) && !Known(s, addr.service.ip)
  }

  // Add returns true for every routable address it did not know, but keeps it only if its slot is
  // free or held by an entry that may be overwritten: one that is terrible or has other references.
  lemma AddKeepsExactly(env: Env, s: State, addr: Address, source: Ip, penalty: int, now: int, lucky: bool)
    requires Inv(env, s) && AddReturns(env, s, addr)
    ensures var slot := env.NewSlot(s.nKey, addr.service, source);
      && (slot in s.vvNew ==> s.vvNew[slot] in s.mapInfo)
      && (Known(Add(env, s, addr, source, penalty, now, lucky), addr.service.ip)
          <==> slot !in s.vvNew || IsTerrible(s.mapInfo[s.vvNew[slot]], now) || s.mapInfo[s.vvNew[slot]].nRefCount > 1)
  {
    var id, t := s.nIdCount, Created(s, addr, source, penalty);
    var slot := env.NewSlot(s.nKey, addr.service, source);
    if slot in s.vvNew {
      NotLoose(env, s, slot, {}, 0);
      assert s.vvNew[slot] != id;
    }
    assert id in t.mapInfo && t.mapInfo[id].service == addr.service && t.mapAddr[addr.service.ip] == id;
    PlacedIsKept(env, t, id, source, now);
  }

  lemma PlacedIsKept(env: Env, s: State, id: int, source: Ip, now: int)
    requires id in s.mapInfo && 0 <= s.mapInfo[id].nRandomPos < |s.vRandom| && s.mapInfo[id].nRefCount == 0
    requires var ip := s.mapInfo[id].service.ip; ip in s.mapAddr && s.mapAddr[ip] == id
    requires var slot := env.NewSlot(s.nKey, s.mapInfo[id].service, source);
      slot in s.vvNew ==>
        Refers(s, slot) && s.vvNew[slot] != id && s.mapInfo[s.vvNew[slot]].service.ip != s.mapInfo[id].service.ip
    ensures var slot, info := env.NewSlot(s.nKey, s.mapInfo[id].service, source), s.mapInfo[id];
      Known(Place(env, s, id, source, now), info.service.ip)
      <==> slot !in s.vvNew || Overwrites(s.mapInfo[s.vvNew[slot]], info, now)
  {
    var slot := env.NewSlot(s.nKey, s.mapInfo[id].service, source);
    ClearNewFrame(s, slot, id);
  }

  /* ---- Runs ---- */

  // A known address gets another reference exactly if it was seen after what is stored, is not tried, has
  // fewer than eight, is lucky, and the slot is free or held by a terrible entry. Nothing else in the
  // new table changes.
  lemma KnownGetsReference(env: Env, s: State, addr: Address, source: Ip, penalty: int, now: int, lucky: bool)
    requires Inv(env, s) && env.routable(addr.service.ip) && Known(s, addr.service.ip)
    ensures var id, t := s.mapAddr[addr.service.ip], Add(env, s, addr, source, penalty, now, lucky);
      var was, stored := s.mapInfo[id], Refreshed(s.mapInfo[id], addr, penalty, now).nTime;
      var slot := env.NewSlot(s.nKey, was.service, source);
      var takes :=
        && addr.nTime != 0 && (stored == 0 || stored < addr.nTime)
        && !was.fInTried && was.nRefCount < NEW_BUCKETS_PER_ADDRESS && lucky
        && (slot in s.vvNew ==>
              var other := s.vvNew[slot]; other in s.mapInfo && other != id && IsTerrible(s.mapInfo[other], now));
      && t.vvNew == (if takes then s.vvNew[slot := id] else s.vvNew)
      && id in t.mapInfo && t.mapInfo[id].nRefCount == was.nRefCount + if takes then 1 else 0
  {
    var id := s.mapAddr[addr.service.ip];
    var info := Refreshed(s.mapInfo[id], addr, penalty, now);
    if WantsRef(info, addr, lucky) {
      KnownTakes(env, s, id, info, source, now);
    }
  }

  lemma KnownTakes(env: Env, s: State, id: int, info: Info, source: Ip, now: int)
    requires Inv(env, s) && id in s.mapInfo && !s.mapInfo[id].fInTried
    requires info == s.mapInfo[id].(nTime := info.nTime, nServices := info.nServices)
    ensures var t, slot := Place(env, SetInfo(s, id, info), id, source, now), env.NewSlot(s.nKey, info.service, source);
      var takes := slot in s.vvNew ==>
        s.vvNew[slot] in s.mapInfo && s.vvNew[slot] != id && IsTerrible(s.mapInfo[s.vvNew[slot]], now);
      && t.vvNew == (if takes then s.vvNew[slot := id] else s.vvNew)
      && id in t.mapInfo && t.mapInfo[id].nRefCount == info.nRefCount + if takes then 1 else 0
  {
    PlaceTakes(env, SetInfo(s, id, info), id, source, now);
  }

  lemma PlaceTakes(env: Env, s: State, id: int, source: Ip, now: int)
    requires NewOk(env, s.nKey, s.vvNew, s.mapInfo) && id in s.mapInfo && s.mapInfo[id].nRefCount > 0
    ensures var t, slot := Place(env, s, id, source, now), env.NewSlot(s.nKey, s.mapInfo[id].service, source);
      var takes := slot in s.vvNew ==>
        s.vvNew[slot] in s.mapInfo && s.vvNew[slot] != id && IsTerrible(s.mapInfo[s.vvNew[slot]], now);
      && t.vvNew == (if takes then s.vvNew[slot := id] else s.vvNew)
      && id in t.mapInfo && t.mapInfo[id].nRefCount == s.mapInfo[id].nRefCount + if takes then 1 else 0
  {
    var slot := env.NewSlot(s.nKey, s.mapInfo[id].service, source);
    if slot !in s.vvNew || s.vvNew[slot] != id {
      ClearNewFrame(s, slot, id);
      assert (s.vvNew - {slot})[slot := id] == s.vvNew[slot := id];
    }
  }

  lemma EmptyInv(env: Env, key: nat)
    requires key != 0
    ensures Inv(env, Empty(key))
  {
    assert News(map[]) == {} && Trieds(map[]) == {};
  }

  datatype Op =
    | OpAdd(addr: Address, source: Ip, penalty: int, now: int, lucky: bool)
    | OpGood(service: Service, nTime: int)
    | OpAttempt(service: Service, nTime: int)
    | OpConnected(service: Service, nTime: int)
    | OpSetServices(service: Service, nServices: Services)
    | OpSwap(i: int, j: int)

  function Step(env: Env, s: State, op: Op): (r: State) {
    match op
    case OpAdd(addr, source, penalty, now, lucky) => Add(env, s, addr, source, penalty, now, lucky)
    case OpGood(service, nTime) => Good(env, s, service, nTime)
    case OpAttempt(service, nTime) => Attempt(s, service, nTime)
    case OpConnected(service, nTime) => Connected(s, service, nTime)
    case OpSetServices(service, nServices) => SetServices(s, service, nServices)
    case OpSwap(i, j) => SwapRandom(s, i, j)
  }

  lemma StepInv(env: Env, s: State, op: Op)
    requires Inv(env, s)
    ensures Inv(env, Step(env, s, op))
  {
    match op
    case OpAdd(addr, source, penalty, now, lucky) => AddInv(env, s, addr, source, penalty, now, lucky);
    case OpGood(service, nTime) => GoodInv(env, s, service, nTime);
    case OpAttempt(service, nTime) => AttemptInv(env, s, service, nTime);
    case OpConnected(service, nTime) => ConnectedInv(env, s, service, nTime);
    case OpSetServices(service, nServices) => SetServicesInv(env, s, service, nServices);
    case OpSwap(i, j) => SwapPartial(env, s, i, j, {}, 0);
  }

  function Run(env: Env, s: State, ops: seq<Op>): (r: State) {
    if ops == [] then s else Step(env, Run(env, s, ops[..|ops| - 1]), ops[|ops| - 1])
  }

  // What every step keeps, every run keeps.
  lemma {:induction false} RunKeeps(env: Env, s: State, ops: seq<Op>, p: State -> bool)
    requires p(s) && forall t, op :: p(t) ==> p(Step(env, t, op))
    ensures p(Run(env, s, ops))
  {
    if ops != [] {
      RunKeeps(env, s, ops[..|ops| - 1], p);
    }
  }

  // Every state a fresh manager can reach is consistent.
  lemma RunInv(env: Env, key: nat, ops: seq<Op>)
    requires key != 0
    ensures Inv(env, Run(env, Empty(key), ops))
  {
    EmptyInv(env, key);
    var p := t => Inv(env, t);
    forall t, op | p(t)
      ensures p(Step(env, t, op))
    {
      StepInv(env, t, op);
    }
    RunKeeps(env, Empty(key), ops, p);
  }

  /* ---- Records ---- */

  // What is known about an address, whatever its place in the tables and in the random order.
  function Record(info: Info): (r: Info) {
    info.(nRefCount := 0, fInTried := false, nRandomPos := 0)
  }

  // No entry is new or has another record in b than in a, and none was moved to the tried table.
  ghost predicate RecordsKept(a: Infos, b: Infos) {
    forall id :: id in b ==> id in a && Record(b[id]) == Record(a[id]) && (b[id].fInTried ==> a[id].fInTried)
  }

  lemma SwapRecords(s: State, i: int, j: int)
    ensures RecordsKept(s.mapInfo, SwapRandom(s, i, j).mapInfo)
  {}

  lemma DeleteRecords(s: State, id: int)
    ensures RecordsKept(s.mapInfo, Delete(s, id).mapInfo)
  {}

  lemma ClearNewRecords(s: State, slot: Slot)
    ensures RecordsKept(s.mapInfo, ClearNew(s, slot).mapInfo)
  {
    if Refers(s, slot) {
      DeleteRecords(Unref(s, slot), s.vvNew[slot]);
    }
  }

  lemma PlaceRecords(env: Env, s: State, id: int, source: Ip, now: int)
    ensures RecordsKept(s.mapInfo, Place(env, s, id, source, now).mapInfo)
  {
    if id in s.mapInfo {
      ClearNewRecords(s, env.NewSlot(s.nKey, s.mapInfo[id].service, source));
      DeleteRecords(s, id);
    }
  }

  lemma EvictRecords(env: Env, s: State, slot: Slot)
    ensures RecordsKept(s.mapInfo, Evict(env, s, slot).mapInfo)
  {
    if slot in s.vvTried && s.vvTried[slot] in s.mapInfo {
      var id := s.vvTried[slot];
      ClearNewRecords(Demoted(s, slot), env.NewSlot(s.nKey, s.mapInfo[id].service, s.mapInfo[id].source));
    }
  }

  lemma SweepOneRecords(env: Env, infos: Infos, t: State, id: int, bucket: int)
    requires RecordsKept(infos, t.mapInfo)
    ensures RecordsKept(infos, SweepOne(env, t, id, bucket).mapInfo)
  {}

  lemma SweepRecords(env: Env, s: State, id: int, n: nat)
    ensures RecordsKept(s.mapInfo, Sweep(env, s, id, n).mapInfo)
  {
    var infos := s.mapInfo;
    var p := (t: State) => RecordsKept(infos, t.mapInfo);
    forall t, bucket | p(t)
      ensures p(SweepOne(env, t, id, bucket))
    {
      SweepOneRecords(env, infos, t, id, bucket);
    }
    SweepKeeps(env, s, id, n, p);
  }

  lemma OutRecords(env: Env, infos: Infos, out: State, slot: Slot)
    requires RecordsKept(infos, out.mapInfo)
    ensures RecordsKept(infos, Evict(env, out, slot).mapInfo)
  {
    EvictRecords(env, out, slot);
  }

  lemma MadeRoomRecords(env: Env, s: State, id: int, slot: Slot, room: State)
    requires room == MadeRoom(env, s, id, slot)
    ensures RecordsKept(s.mapInfo, room.mapInfo)
  {
    var swept := Sweep(env, s, id, NEW_BUCKET_COUNT);
    var out := swept.(nNew := swept.nNew - 1);
    assert room == Evict(env, out, slot);
    SweepRecords(env, s, id, NEW_BUCKET_COUNT);
    OutRecords(env, s.mapInfo, out, slot);
  }

  // Only the entry of id has another record, or is new.
  ghost predicate OthersKept(a: Infos, b: Infos, id: int) {
    forall k :: k in b && k != id ==> k in a && Record(b[k]) == Record(a[k])
  }

  // Only entries that had a last reference in slot are lost.
  ghost predicate LosesAt(s: State, t: State, slot: Slot) {
    forall k :: k in s.mapInfo && k !in t.mapInfo ==>
      slot in s.vvNew && s.vvNew[slot] == k && s.mapInfo[k].nRefCount == 1
  }

  lemma ClearNewLoses(s: State, slot: Slot)
    ensures LosesAt(s, ClearNew(s, slot), slot)
  {}

  lemma SweepOnlyDrops(env: Env, s: State, id: int, n: nat)
    ensures var t := Sweep(env, s, id, n);
      forall slot :: slot in t.vvNew ==> slot in s.vvNew && t.vvNew[slot] == s.vvNew[slot]
  {
    var table := s.vvNew;
    var p := (t: State) => forall slot :: slot in t.vvNew ==> slot in table && t.vvNew[slot] == table[slot];
    forall t, bucket | p(t)
      ensures p(SweepOne(env, t, id, bucket))
    {}
    SweepKeeps(env, s, id, n, p);
  }

  // Where the entry goes that holds a tried slot, when it has to make room there.
  function WayBack(env: Env, s: State, slot: Slot): (r: Slot)
    requires slot in s.vvTried && s.vvTried[slot] in s.mapInfo
  {
    var out := s.mapInfo[s.vvTried[slot]];
    env.NewSlot(s.nKey, out.service, out.source)
  }

  lemma EvictLoses(env: Env, s: State, slot: Slot)
    requires slot in s.vvTried && s.vvTried[slot] in s.mapInfo
    ensures LosesAt(s, Evict(env, s, slot), WayBack(env, s, slot))
  {
    ClearNewLoses(Demoted(s, slot), WayBack(env, s, slot));
  }

  // Making an entry tried loses at most the one whose last reference is where the displaced one goes.
  lemma MakeTriedLoses(env: Env, s: State, id: int)
    requires Inv(env, s) && id in s.mapInfo && !s.mapInfo[id].fInTried
    ensures var t, slot := MakeTried(env, s, id), env.TriedSlot(s.nKey, s.mapInfo[id].service);
      if slot in s.vvTried then s.vvTried[slot] in s.mapInfo && LosesAt(s, t, WayBack(env, s, slot))
      else s.mapInfo.Keys <= t.mapInfo.Keys
  {
    var slot := env.TriedSlot(s.nKey, s.mapInfo[id].service);
    MadeRoomPartial(env, s, id, slot);
    MadeRoomLoses(env, s, id, slot);
    PromoteIs(MadeRoom(env, s, id, slot), slot, id);
  }

  lemma MadeRoomLoses(env: Env, s: State, id: int, slot: Slot)
    requires Inv(env, s) && id in s.mapInfo && !s.mapInfo[id].fInTried
    ensures var room := MadeRoom(env, s, id, slot);
      if slot in s.vvTried then s.vvTried[slot] in s.mapInfo && LosesAt(s, room, WayBack(env, s, slot))
      else s.mapInfo.Keys <= room.mapInfo.Keys
  {
    SweepLeadsOut(env, s, id);
    SweepOnlyDrops(env, s, id, NEW_BUCKET_COUNT);
    var swept := Sweep(env, s, id, NEW_BUCKET_COUNT);
    OutLoses(env, s, swept.(nNew := swept.nNew - 1), id, slot);
  }

  lemma OutLoses(env: Env, s: State, out: State, id: int, slot: Slot)
    requires SweptOut(env, s, out, id) && TriedOk(env, s.nKey, s.vvTried, s.mapInfo) && !s.mapInfo[id].fInTried
    requires forall slot :: slot in out.vvNew ==> slot in s.vvNew && out.vvNew[slot] == s.vvNew[slot]
    ensures var room := Evict(env, out, slot);
      if slot in s.vvTried then s.vvTried[slot] in s.mapInfo && LosesAt(s, room, WayBack(env, s, slot))
      else s.mapInfo.Keys <= room.mapInfo.Keys
  {
    OutLeadsToRoom(env, s, out, id, slot);
    if slot in s.vvTried {
      EvictLoses(env, out, slot);
      LosesOnce(env, s, out, id, slot, Evict(env, out, slot));
    }
  }

  lemma LosesOnce(env: Env, s: State, out: State, id: int, slot: Slot, t: State)
    requires SweptFrame(s, out.(nNew := s.nNew), id) && !s.mapInfo[id].fInTried
    requires forall slot :: slot in out.vvNew ==> slot in s.vvNew && out.vvNew[slot] == s.vvNew[slot]
    requires slot in s.vvTried && s.vvTried[slot] in s.mapInfo && s.vvTried[slot] != id && id in t.mapInfo
    requires LosesAt(out, t, WayBack(env, out, slot))
    ensures LosesAt(s, t, WayBack(env, s, slot))
  {}

  lemma PromoteIs(room: State, slot: Slot, id: int)
    requires id in room.mapInfo
    ensures var t := Promote(room, slot, id);
      && t.mapInfo == room.mapInfo[id := room.mapInfo[id].(fInTried := true)] && t.mapInfo.Keys == room.mapInfo.Keys
      && t.nLastGood == room.nLastGood
  {}

  // An address that is moved to the tried table takes its times there.
  lemma MakeTriedTimes(env: Env, s: State, id: int)
    requires Inv(env, s) && id in s.mapInfo && !s.mapInfo[id].fInTried && TimesOk(s.mapInfo - {id})
    ensures var info := s.mapInfo[id];
      TimesOk(MakeTried(env, s, id).mapInfo) <==> info.nLastTry >= 0 && info.nLastSuccess > 0
  {
    var slot := env.TriedSlot(s.nKey, s.mapInfo[id].service);
    var room := MadeRoom(env, s, id, slot);
    MadeRoomPartial(env, s, id, slot);
    MadeRoomRecords(env, s, id, slot, room);
    PromotedTimes(s.mapInfo, room.mapInfo, id);
  }

  lemma PromotedTimes(was: Infos, infos: Infos, id: int)
    requires RecordsKept(was, infos) && TimesOk(was - {id}) && id in was && id in infos
    ensures TimesOk(infos[id := infos[id].(fInTried := true)]) <==> was[id].nLastTry >= 0 && was[id].nLastSuccess > 0
  {
    var after := infos[id := infos[id].(fInTried := true)];
    assert id in after;
    forall k | k in after && k != id
      ensures after[k].nLastTry >= 0 && after[k].nLastSuccess >= 0
      ensures after[k].fInTried ==> after[k].nLastSuccess != 0
    {
      assert k in was - {id};
    }
  }

  lemma SucceededTimes(s: State, id: int, nTime: int)
    requires TimesOk(s.mapInfo) && id in s.mapInfo
    ensures var u := Succeeded(s, id, nTime);
      && TimesOk(u.mapInfo - {id}) && u.mapInfo[id].nLastTry == u.mapInfo[id].nLastSuccess == nTime
      && (s.mapInfo[id].fInTried ==> (TimesOk(u.mapInfo) <==> nTime > 0))
  {
    assert Succeeded(s, id, nTime).mapInfo - {id} == s.mapInfo - {id};
  }

  lemma GoodTimes(env: Env, s: State, service: Service, nTime: int)
    requires Inv(env, s) && TimesOk(s.mapInfo)
    ensures TimesOk(Good(env, s, service, nTime).mapInfo) <==> nTime > 0 || !Matches(s, service)
  {
    if Matches(s, service) {
      var id := s.mapAddr[service.ip];
      GoodIs(env, s, service, nTime);
      SucceededTimes(s, id, nTime);
      if !s.mapInfo[id].fInTried {
        SucceededInv(env, s, id, nTime);
        MakeTriedTimes(env, Succeeded(s, id, nTime), id);
      }
    }
  }

  // Marking an address good records the time, and forgets failed attempts; nothing else that is known
  // about any address changes.
  lemma GoodRecords(env: Env, s: State, service: Service, nTime: int)
    requires Inv(env, s)
    ensures var t := Good(env, s, service, nTime);
      && t.nLastGood == nTime
      && if !Matches(s, service) then t.mapInfo == s.mapInfo
         else
           var id := s.mapAddr[service.ip];
           && id in t.mapInfo && t.mapInfo[id].fInTried
           && Record(t.mapInfo[id]) == Record(s.mapInfo[id]).(nLastSuccess := nTime, nLastTry := nTime, nAttempts := 0)
           && OthersKept(s.mapInfo, t.mapInfo, id)
  {
    if Matches(s, service) {
      var id := s.mapAddr[service.ip];
      GoodIs(env, s, service, nTime);
      SucceededRecords(s, id, nTime);
      if !s.mapInfo[id].fInTried {
        SucceededInv(env, s, id, nTime);
        MakeTriedRecords(env, Succeeded(s, id, nTime), id);
      }
    }
  }

  lemma SucceededRecords(s: State, id: int, nTime: int)
    requires id in s.mapInfo
    ensures var u := Succeeded(s, id, nTime);
      && u.nLastGood == nTime && u.mapInfo.Keys == s.mapInfo.Keys
      && Record(u.mapInfo[id]) == Record(s.mapInfo[id]).(nLastSuccess := nTime, nLastTry := nTime, nAttempts := 0)
      && forall k :: k in s.mapInfo && k != id ==> u.mapInfo[k] == s.mapInfo[k]
  {}

  lemma MakeTriedRecords(env: Env, s: State, id: int)
    requires Inv(env, s) && id in s.mapInfo && !s.mapInfo[id].fInTried
    ensures var t := MakeTried(env, s, id);
      && id in t.mapInfo && t.mapInfo[id].fInTried && t.nLastGood == s.nLastGood
      && forall k :: k in t.mapInfo ==> k in s.mapInfo && Record(t.mapInfo[k]) == Record(s.mapInfo[k])
  {
    var slot := env.TriedSlot(s.nKey, s.mapInfo[id].service);
    var room := MadeRoom(env, s, id, slot);
    MadeRoomPartial(env, s, id, slot);
    MadeRoomRecords(env, s, id, slot, room);
    PromoteIs(room, slot, id);
    MadeRoomGood(env, s, id, slot);
  }

  lemma MadeRoomGood(env: Env, s: State, id: int, slot: Slot)
    requires id in s.mapInfo
    ensures MadeRoom(env, s, id, slot).nLastGood == s.nLastGood
  {
    SweepFrame(env, s, id, NEW_BUCKET_COUNT);
    var swept := Sweep(env, s, id, NEW_BUCKET_COUNT);
    EvictGood(env, swept.(nNew := swept.nNew - 1), slot);
  }

  lemma EvictGood(env: Env, s: State, slot: Slot)
    ensures Evict(env, s, slot).nLastGood == s.nLastGood
  {}

  // The only entry that can be lost over it is one whose last reference is where the displaced entry goes.
  lemma GoodLoses(env: Env, s: State, service: Service, nTime: int)
    requires Inv(env, s) && Matches(s, service)
    ensures var t, slot, id := Good(env, s, service, nTime), env.TriedSlot(s.nKey, service), s.mapAddr[service.ip];
      if !s.mapInfo[id].fInTried && slot in s.vvTried then
        s.vvTried[slot] in s.mapInfo && LosesAt(s, t, WayBack(env, s, slot))
      else s.mapInfo.Keys <= t.mapInfo.Keys
  {
    var id := s.mapAddr[service.ip];
    GoodIs(env, s, service, nTime);
    if !s.mapInfo[id].fInTried {
      SucceededInv(env, s, id, nTime);
      MakeTriedLoses(env, Succeeded(s, id, nTime), id);
    }
  }

  // An attempt is counted once after each success of the whole manager; nothing else changes.
  lemma AttemptRecords(s: State, service: Service, nTime: int)
    ensures var t := Attempt(s, service, nTime);
      if !Matches(s, service) then t == s
      else
        var id := s.mapAddr[service.ip];
        && id in t.mapInfo && t == s.(mapInfo := s.mapInfo[id := t.mapInfo[id]])
        && var was, info := s.mapInfo[id], t.mapInfo[id];
           var counts := was.nLastCountAttempt < s.nLastGood;
           && info.nLastTry == nTime
           && info.nAttempts == was.nAttempts + (if counts then 1 else 0)
           && info.nLastCountAttempt == (if counts then nTime else was.nLastCountAttempt)
           && info == was.(nLastTry := info.nLastTry, nAttempts := info.nAttempts,
                           nLastCountAttempt := info.nLastCountAttempt)
  {}

  // A second attempt is not counted, unless some address was good after the first.
  lemma SecondAttempt(env: Env, s: State, service: Service, nTime: int, later: int)
    requires Inv(env, s) && Matches(s, service) && nTime >= s.nLastGood
    ensures var id, t := s.mapAddr[service.ip], Attempt(s, service, nTime);
      && Matches(t, service) && id in t.mapInfo && id in Attempt(t, service, later).mapInfo
      && Attempt(t, service, later).mapInfo[id].nAttempts == t.mapInfo[id].nAttempts
  {
    AttemptRecords(s, service, nTime);
    AttemptRecords(Attempt(s, service, nTime), service, later);
  }

  // A connection moves the time by more than 20 minutes or not at all; the services are replaced.
  lemma ConnectionRecords(s: State, service: Service, nTime: int, nServices: Services)
    ensures var t, u := Connected(s, service, nTime), SetServices(s, service, nServices);
      if !Matches(s, service) then t == u == s
      else
        var id := s.mapAddr[service.ip];
        && id in t.mapInfo && t == s.(mapInfo := s.mapInfo[id := s.mapInfo[id].(nTime := t.mapInfo[id].nTime)])
        && t.mapInfo[id].nTime == (if nTime <= s.mapInfo[id].nTime + 20 * 60 then s.mapInfo[id].nTime else nTime)
        && u == s.(mapInfo := s.mapInfo[id := s.mapInfo[id].(nServices := nServices)])
  {
    if Matches(s, service) {
      var id := s.mapAddr[service.ip];
      assert s.mapInfo[id := s.mapInfo[id]] == s.mapInfo;
    }
  }

  // An address heard of again never looks older. It looks newer if what is heard, less the penalty, is
  // more than an hour newer and from the last day, or more than a day newer, or the first time at all.
  lemma RefreshIsForward(info: Info, addr: Address, penalty: int, now: int)
    ensures var r, heard := Refreshed(info, addr, penalty, now), addr.nTime - penalty;
      var margin := if addr.nTime > now - 24 * 60 * 60 then 60 * 60 else 24 * 60 * 60;
      && info.nTime <= r.nTime
      && (r.nTime == info.nTime || r.nTime == heard || (r.nTime == 0 && heard < 0))
      && (addr.nTime == 0 || (info.nTime != 0 && heard <= info.nTime + margin) ==> r.nTime == info.nTime)
      && (addr.nTime != 0 && info.nTime >= 0 && heard > info.nTime + margin ==> r.nTime == heard)
      && (addr.nTime != 0 && info.nTime == 0 && heard >= 0 ==> r.nTime == heard)
      && r == info.(nTime := r.nTime, nServices := info.nServices + addr.nServices)
  {}

  // The entry that Add is about.
  function Target(s: State, addr: Address): (r: int) {
    if Known(s, addr.service.ip) then s.mapAddr[addr.service.ip] else s.nIdCount
  }

  lemma PlaceKeeps(env: Env, s: State, id: int, source: Ip, now: int)
    requires id in s.mapInfo && s.mapInfo[id].nRefCount > 0
    ensures id in Place(env, s, id, source, now).mapInfo
  {
    var slot := env.NewSlot(s.nKey, s.mapInfo[id].service, source);
    if slot in s.vvNew && Refers(s, slot) && s.vvNew[slot] != id {
      ClearNewFrame(s, slot, id);
    }
  }

  // Right after an address was marked good it is not terrible.
  lemma GoodIsNotTerrible(env: Env, s: State, service: Service, now: int)
    requires Inv(env, s) && Matches(s, service) && now > 0
    ensures var id, t := s.mapAddr[service.ip], Good(env, s, service, now);
      id in t.mapInfo && !IsTerrible(t.mapInfo[id], now)
  {
    GoodRecords(env, s, service, now);
    var id := s.mapAddr[service.ip];
    assert Record(Good(env, s, service, now).mapInfo[id]).nLastTry == now;
  }

  // An address that was not tried in the last minute is terrible if it was not seen for 30 days, or
  // claims to be from the future, or failed too often. It is not if it was seen and hardly failed.
  lemma TerribleWhen(info: Info, now: int)
    requires info.nLastTry == 0 || info.nLastTry < now - 60
    ensures info.nTime == 0 || info.nTime < now - 2592000 || info.nTime > now + 600 ==> IsTerrible(info, now)
    ensures info.nAttempts >= 3 && info.nLastSuccess == 0 ==> IsTerrible(info, now)
    ensures info.nAttempts >= 10 && info.nLastSuccess < now - 604800 ==> IsTerrible(info, now)
    ensures var seen := info.nTime != 0 && now - 2592000 <= info.nTime <= now + 600;
      && (seen && info.nAttempts < 3 ==> !IsTerrible(info, now))
      && (seen && info.nLastSuccess != 0 && info.nAttempts < 10 ==> !IsTerrible(info, now))
      && (seen && info.nLastSuccess != 0 && info.nLastSuccess >= now - 604800 ==> !IsTerrible(info, now))
  {}

  // Adding gives a known address what was heard of it, and a new one a record of its own; nothing else
  // that is known about any address changes.
  lemma AddRecords(env: Env, s: State, addr: Address, source: Ip, penalty: int, now: int, lucky: bool)
    requires Inv(env, s) && env.routable(addr.service.ip)
    ensures var t, id := Add(env, s, addr, source, penalty, now, lucky), Target(s, addr);
      && OthersKept(s.mapInfo, t.mapInfo, id)
      && (Known(s, addr.service.ip) ==> id in t.mapInfo)
      && (id in t.mapInfo ==>
            var info, seen := t.mapInfo[id], if addr.nTime > penalty then addr.nTime - penalty else 0;
            if Known(s, addr.service.ip) then Record(info) == Record(Refreshed(s.mapInfo[id], addr, penalty, now))
            else Record(info) == Info(addr.service, addr.nServices, seen, source, 0, 0, 0, 0, 0, false, 0))
  {
    var id := Target(s, addr);
    if Known(s, addr.service.ip) {
      var info := Refreshed(s.mapInfo[id], addr, penalty, now);
      PlaceRecords(env, SetInfo(s, id, info), id, source, now);
      if WantsRef(info, addr, lucky) {
        PlaceKeeps(env, SetInfo(s, id, info), id, source, now);
      }
    } else {
      PlaceRecords(env, Created(s, addr, source, penalty), id, source, now);
    }
  }

  // Only a terrible address with its last reference in the wanted slot can be lost to another one.
  lemma AddLoses(env: Env, s: State, addr: Address, source: Ip, penalty: int, now: int, lucky: bool)
    requires Inv(env, s) && env.routable(addr.service.ip)
    ensures var t, id := Add(env, s, addr, source, penalty, now, lucky), Target(s, addr);
      var service := if Known(s, addr.service.ip) then s.mapInfo[id].service else addr.service;
      TerribleLost(s, t, env.NewSlot(s.nKey, service, source), now)
  {
    var id := Target(s, addr);
    if Known(s, addr.service.ip) {
      KnownLoses(env, s, addr, source, penalty, now, lucky, id);
    } else {
      PlaceLoses(env, Created(s, addr, source, penalty), id, source, now);
    }
  }

  ghost predicate TerribleLost(s: State, t: State, slot: Slot, now: int) {
    LosesAt(s, t, slot) && forall k :: k in s.mapInfo && k !in t.mapInfo ==> IsTerrible(s.mapInfo[k], now)
  }

  lemma KnownLoses(env: Env, s: State, addr: Address, source: Ip, penalty: int, now: int, lucky: bool, id: int)
    requires Inv(env, s) && env.routable(addr.service.ip) && Known(s, addr.service.ip)
    requires id == s.mapAddr[addr.service.ip]
    ensures var t := Add(env, s, addr, source, penalty, now, lucky);
      TerribleLost(s, t, env.NewSlot(s.nKey, s.mapInfo[id].service, source), now)
  {
    var info := Refreshed(s.mapInfo[id], addr, penalty, now);
    var u := SetInfo(s, id, info);
    if WantsRef(info, addr, lucky) {
      assert info.nRefCount > 0;
      PlaceLoses(env, u, id, source, now);
      PlaceKeeps(env, u, id, source, now);
    }
  }

  lemma PlaceLoses(env: Env, s: State, id: int, source: Ip, now: int)
    requires id in s.mapInfo
    ensures var t, slot := Place(env, s, id, source, now), env.NewSlot(s.nKey, s.mapInfo[id].service, source);
      forall k :: k in s.mapInfo && k !in t.mapInfo && k != id ==>
        slot in s.vvNew && s.vvNew[slot] == k && s.mapInfo[k].nRefCount == 1 && IsTerrible(s.mapInfo[k], now)
  {
    ClearNewLoses(s, env.NewSlot(s.nKey, s.mapInfo[id].service, source));
  }

  lemma AttemptTimes(s: State, service: Service, nTime: int)
    requires TimesOk(s.mapInfo)
    ensures TimesOk(Attempt(s, service, nTime).mapInfo) <==> nTime >= 0 || !Matches(s, service)
  {
    if Matches(s, service) {
      var id := s.mapAddr[service.ip];
      assert Attempt(s, service, nTime).mapInfo[id].nLastTry == nTime;
    }
  }

  lemma ConnectedTimes(s: State, service: Service, nTime: int)
    requires TimesOk(s.mapInfo)
    ensures TimesOk(Connected(s, service, nTime).mapInfo)
  {}

  lemma SetServicesTimes(s: State, service: Service, nServices: Services)
    requires TimesOk(s.mapInfo)
    ensures TimesOk(SetServices(s, service, nServices).mapInfo)
  {}

  lemma AddTimes(env: Env, s: State, addr: Address, source: Ip, penalty: int, now: int, lucky: bool)
    requires TimesOk(s.mapInfo)
    ensures TimesOk(Add(env, s, addr, source, penalty, now, lucky).mapInfo)
  {
    if env.routable(addr.service.ip) {
      if Known(s, addr.service.ip) {
        var id := s.mapAddr[addr.service.ip];
        PlaceRecords(env, SetInfo(s, id, Refreshed(s.mapInfo[id], addr, penalty, now)), id, source, now);
      } else {
        PlaceRecords(env, Created(s, addr, source, penalty), s.nIdCount, source, now);
      }
    }
  }

  // Whether the manager is told a time that its check accepts, for an address it has.
  predicate Timely(s: State, op: Op) {
    match op
    case OpGood(service, nTime) => nTime > 0 || !Matches(s, service)
    case OpAttempt(service, nTime) => nTime >= 0 || !Matches(s, service)
    case _ => true
  }

  lemma StepTimes(env: Env, s: State, op: Op)
    requires Inv(env, s) && TimesOk(s.mapInfo)
    ensures TimesOk(Step(env, s, op).mapInfo) <==> Timely(s, op)
  {
    match op
    case OpAdd(addr, source, penalty, now, lucky) => AddTimes(env, s, addr, source, penalty, now, lucky);
    case OpGood(service, nTime) => GoodTimes(env, s, service, nTime);
    case OpAttempt(service, nTime) => AttemptTimes(s, service, nTime);
    case OpConnected(service, nTime) => ConnectedTimes(s, service, nTime);
    case OpSetServices(service, nServices) => SetServicesTimes(s, service, nServices);
    case OpSwap(i, j) => SwapRecords(s, i, j);
  }

  ghost predicate AlwaysTimely(env: Env, s: State, ops: seq<Op>) {
    ops == [] || (AlwaysTimely(env, s, ops[..|ops| - 1]) && Timely(Run(env, s, ops[..|ops| - 1]), ops[|ops| - 1]))
  }

  ghost predicate TimesAlwaysOk(env: Env, s: State, ops: seq<Op>) {
    TimesOk(Run(env, s, ops).mapInfo) && (ops == [] || TimesAlwaysOk(env, s, ops[..|ops| - 1]))
  }

  // Every state of a run has times that the check accepts if and only if every step is told such a time.
  lemma {:induction false} RunTimes(env: Env, key: nat, ops: seq<Op>)
    requires key != 0
    ensures TimesAlwaysOk(env, Empty(key), ops) <==> AlwaysTimely(env, Empty(key), ops)
  {
    if ops != [] {
      var before := ops[..|ops| - 1];
      RunTimes(env, key, before);
      RunInv(env, key, before);
      if TimesAlwaysOk(env, Empty(key), before) {
        StepTimes(env, Run(env, Empty(key), before), ops[|ops| - 1]);
      }
    }
  }

  lemma RunSnoc(env: Env, s: State, ops: seq<Op>, op: Op)
    ensures Run(env, s, ops + [op]) == Step(env, Run(env, s, ops), op)
  {
    assert (ops + [op])[..|ops|] == ops;
  }

  // Hashes under which all addresses share one slot of the new table.
  function OneSlot(): (r: Env) {
    Env((key, service) => 0, (key, service, ip) => 0, (key, isNew, bucket, service) => 0, ip => true)
  }

  // Adds the address of a given IP, told by itself, seen just now.
  function AddOf(id: nat): (r: Op) {
    OpAdd(Address(Service(Ip(id), 8333), {}, 1000), Ip(id), 0, 1000, false)
  }

  // The first address takes the slot, and is recent and referred to once.
  lemma FirstIsKept(key: nat)
    ensures var s, slot := Run(OneSlot(), Empty(key), [AddOf(1)]), Slot(0, 0);
      && s.nKey == key && s.mapAddr == map[Ip(1) := 0] && slot in s.vvNew && s.vvNew[slot] == 0
      && 0 in s.mapInfo && s.mapInfo[0].nRefCount == 1 && !IsTerrible(s.mapInfo[0], 1000)
  {
    RunSnoc(OneSlot(), Empty(key), [], AddOf(1));
    assert [] + [AddOf(1)] == [AddOf(1)];
  }

  // A run after which Add returns true for the second address and the manager does not know it.
  lemma AddForgets(key: nat)
    requires key != 0
    ensures AddReturns(OneSlot(), Run(OneSlot(), Empty(key), [AddOf(1)]), AddOf(2).addr)
    ensures !Known(Run(OneSlot(), Empty(key), [AddOf(1)] + [AddOf(2)]), AddOf(2).addr.service.ip)
  {
    var s := Run(OneSlot(), Empty(key), [AddOf(1)]);
    FirstIsKept(key);
    RunInv(OneSlot(), key, [AddOf(1)]);
    AddKeepsExactly(OneSlot(), s, AddOf(2).addr, Ip(2), 0, 1000, false);
    RunSnoc(OneSlot(), Empty(key), [AddOf(1)], AddOf(2));
  }
}
