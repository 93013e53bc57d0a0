/** The address manager itself, updated in place. */
module AddrManObject {
  // Each method is tied to the operation of module AddrMan of the same name; the assertions of the
  // program are assertions here.

  import opened AddrMan
  import opened AddrManConsistency
  import opened AddrManOperations
  import opened AddrManStore
  import opened AddrManStoreProofs
  import opened Bits

  class CAddrMan {
    const env: Env

    var nIdCount: int
    var mapInfo: Infos
    var mapAddr: map<Ip, int>
    var vRandom: seq<int>
    var nTried: int
    var vvTried: Table
    var nNew: int
    var vvNew: Table
    var nLastGood: int
    var nKey: nat

    ghost function Now(): (r: State)
      reads this
    {
      State(nIdCount, mapInfo, mapAddr, vRandom, nTried, vvTried, nNew, vvNew, nLastGood, nKey)
    }

    ghost predicate Valid()
      reads this
    {
      Inv(env, Now())
    }

    // The key is drawn at random and is never the null key.
    constructor (env: Env, nKey: nat)
      requires nKey != 0
      ensures this.env == env && Now() == Empty(nKey) && Valid()
    {
      this.env := env;
      mapInfo, mapAddr := map[], map[];
      new;
      Clear(nKey);
      EmptyInv(env, nKey);
    }

    // The maps keep what they hold. The key is drawn at random.
    method Clear(key: nat)
      modifies this
      ensures Now() == Cleared(old(Now()), key)
      ensures key != 0 ==> (Valid() <==> old(mapInfo) == map[] && old(mapAddr) == map[])
    {
      vRandom, nKey := [], key;
      vvNew, vvTried := map[], map[];
      nIdCount, nTried, nNew, nLastGood := 0, 0, 0, 1;
      if key != 0 {
        ClearedInv(env, old(Now()), key);
      }
    }

    method Create(addr: Address, source: Ip) returns (nId: int)
      modifies this
      ensures nId == old(nIdCount) && Now() == AddrMan.Create(old(Now()), addr, source)
    {
      nId := nIdCount;
      nIdCount := nIdCount + 1;
      mapInfo := mapInfo[nId := NewInfo(addr, source, -1)];
      mapAddr := mapAddr[addr.service.ip := nId];
      mapInfo := mapInfo[nId := mapInfo[nId].(nRandomPos := |vRandom|)];
      vRandom := vRandom + [nId];
    }

    method SwapRandom(nRndPos1: int, nRndPos2: int)
      requires 0 <= nRndPos1 < |vRandom| && 0 <= nRndPos2 < |vRandom|
      requires RandomOk(vRandom, mapInfo)
      modifies this`mapInfo, this`vRandom
      ensures Now() == AddrMan.SwapRandom(old(Now()), nRndPos1, nRndPos2)
    {
      if nRndPos1 == nRndPos2 {
        return;
      }
      var nId1, nId2 := vRandom[nRndPos1], vRandom[nRndPos2];
      assert nId1 in mapInfo;
      assert nId2 in mapInfo;
      mapInfo := mapInfo[nId1 := mapInfo[nId1].(nRandomPos := nRndPos2)];
      mapInfo := mapInfo[nId2 := mapInfo[nId2].(nRandomPos := nRndPos1)];
      vRandom := vRandom[nRndPos1 := nId2];
      vRandom := vRandom[nRndPos2 := nId1];
    }

    // The entry must not be in tried and must have no references.
    method Delete(nId: int)
      requires nId in mapInfo && !mapInfo[nId].fInTried && mapInfo[nId].nRefCount == 0
      requires RandomOk(vRandom, mapInfo)
      modifies this
      ensures Now() == AddrMan.Delete(old(Now()), nId)
    {
      SwapRandom(mapInfo[nId].nRandomPos, |vRandom| - 1);
      assert nId in mapInfo && mapInfo[nId].service == old(mapInfo[nId].service);
      vRandom := vRandom[..|vRandom| - 1];
      mapAddr := mapAddr - {mapInfo[nId].service.ip};
      mapInfo := mapInfo - {nId};
      nNew := nNew - 1;
    }

    method ClearNew(slot: Slot)
      requires Clearable(Now(), slot) && RandomOk(vRandom, mapInfo)
      modifies this
      ensures Now() == AddrMan.ClearNew(old(Now()), slot)
    {
      if slot in vvNew {
        var nIdDelete := vvNew[slot];
        assert mapInfo[nIdDelete].nRefCount > 0;
        mapInfo := mapInfo[nIdDelete := mapInfo[nIdDelete].(nRefCount := mapInfo[nIdDelete].nRefCount - 1)];
        vvNew := vvNew - {slot};
        if mapInfo[nIdDelete].nRefCount == 0 {
          Delete(nIdDelete);
        }
      }
    }

    // The first loop of MakeTried: removes the entry from all new buckets.
    method SweepNew(nId: int)
      requires nId in mapInfo
      modifies this`vvNew, this`mapInfo
      ensures Now() == Sweep(env, old(Now()), nId, NEW_BUCKET_COUNT)
    {
      for bucket := 0 to NEW_BUCKET_COUNT
        invariant Now() == Sweep(env, old(Now()), nId, bucket) && nId in mapInfo
      {
        var slot := env.NewSlotIn(nKey, bucket, mapInfo[nId].service);
        if slot in vvNew && vvNew[slot] == nId {
          vvNew := vvNew - {slot};
          mapInfo := mapInfo[nId := mapInfo[nId].(nRefCount := mapInfo[nId].nRefCount - 1)];
        }
      }
    }

    method MakeRoom(nId: int, slot: Slot)
      requires Valid() && nId in mapInfo && !mapInfo[nId].fInTried
      modifies this
      ensures Now() == MadeRoom(env, old(Now()), nId, slot)
    {
      ghost var s := Now();
      SweepOut(nId);
      RoomReady(env, s, Now(), nId);
      assert mapInfo[nId].nRefCount == 0;
      MoveOut(nId, slot);
    }

    method SweepOut(nId: int)
      requires nId in mapInfo
      modifies this
      ensures var t := Sweep(env, old(Now()), nId, NEW_BUCKET_COUNT); Now() == t.(nNew := t.nNew - 1)
    {
      SweepNew(nId);
      nNew := nNew - 1;
    }

    method MakeTried(nId: int)
      requires Valid() && nId in mapInfo && !mapInfo[nId].fInTried
      modifies this
      ensures Now() == AddrMan.MakeTried(env, old(Now()), nId)
    {
      var slot := env.TriedSlot(nKey, mapInfo[nId].service);
      MakeRoom(nId, slot);
      assert ReadyToPromote(old(Now()), Now(), nId, slot) by {
        MadeRoomPartial(env, old(Now()), nId, slot);
      }
      assert slot !in vvTried;
      PutInTried(nId, slot);
    }

    method PutInTried(nId: int, slot: Slot)
      requires nId in mapInfo
      modifies this
      ensures Now() == Promote(old(Now()), slot, nId)
    {
      vvTried := vvTried[slot := nId];
      nTried := nTried + 1;
      mapInfo := mapInfo[nId := mapInfo[nId].(fInTried := true)];
    }

    // One more reference from the new table.
    method Refer(nId: int, slot: Slot)
      requires nId in mapInfo
      modifies this`mapInfo, this`vvNew
      ensures Now() == AddRef(old(Now()), slot, nId)
    {
      mapInfo := mapInfo[nId := mapInfo[nId].(nRefCount := mapInfo[nId].nRefCount + 1)];
      vvNew := vvNew[slot := nId];
    }

    // The eviction in the middle of MakeTried: the entry in a tried slot is moved to new,
    // deleting whatever is there.
    method MoveOut(nId: int, slot: Slot)
      requires Partial(env, Now(), {nId}, 1) && nId in mapInfo && !mapInfo[nId].fInTried
      modifies this
      ensures Now() == Evict(env, old(Now()), slot)
    {
      if slot in vvTried {
        var nIdEvict := vvTried[slot];
        assert CanEvict(env, Now(), slot) by {
          PartialCanEvict(env, Now(), slot, nId);
        }
        EvictFound(nIdEvict, slot);
      }
    }

    method EvictFound(nIdEvict: int, slot: Slot)
      requires slot in vvTried && vvTried[slot] == nIdEvict && CanEvict(env, Now(), slot)
      modifies this
      ensures Now() == Evict(env, old(Now()), slot)
    {
      assert nIdEvict in mapInfo;
      mapInfo := mapInfo[nIdEvict := mapInfo[nIdEvict].(fInTried := false)];
      vvTried := vvTried - {slot};
      nTried := nTried - 1;
      assert Now() == Demoted(old(Now()), slot);
      var newSlot := env.NewSlot(nKey, mapInfo[nIdEvict].service, mapInfo[nIdEvict].source);
      ClearNew(newSlot);
      assert newSlot !in vvNew;
      mapInfo := mapInfo[nIdEvict := mapInfo[nIdEvict].(nRefCount := 1)];
      vvNew := vvNew[newSlot := nIdEvict];
      nNew := nNew + 1;
    }

    // Find by IP alone.
    method Find(ip: Ip) returns (found: bool, nId: int)
      ensures found <==> Known(Now(), ip)
      ensures found ==> nId == mapAddr[ip]
    {
      found := ip in mapAddr && mapAddr[ip] in mapInfo;
      nId := if ip in mapAddr then mapAddr[ip] else 0;
    }

    // nRnd is the bucket the search starts from, drawn at random.
    method FindBucket(nId: int, nRnd: int) returns (nUBucket: int)
      requires Valid() && nId in mapInfo && !mapInfo[nId].fInTried && 0 <= nRnd < NEW_BUCKET_COUNT
      ensures 0 <= nUBucket < NEW_BUCKET_COUNT
      ensures var slot := env.NewSlotIn(nKey, nUBucket, mapInfo[nId].service); slot in vvNew && vvNew[slot] == nId
    {
      nUBucket := -1;
      var n := 0;
      while n < NEW_BUCKET_COUNT
        invariant 0 <= n <= NEW_BUCKET_COUNT
        invariant forall b :: Visited(b, nRnd, n) ==> !Holds(b, nId)
      {
        var nB := (n + nRnd) % NEW_BUCKET_COUNT;
        var slot := env.NewSlotIn(nKey, nB, mapInfo[nId].service);
        if slot in vvNew && vvNew[slot] == nId {
          return nB;
        }
        n := n + 1;
      }
      // The bail-out: no bucket is found.
      ghost var bucket := BucketIsFound(env, Now(), nId);
      assert Visited(bucket, nRnd, NEW_BUCKET_COUNT) && Holds(bucket, nId);
      assert false;
    }

    ghost predicate Holds(bucket: int, nId: int)
      requires nId in mapInfo
      reads this
    {
      var slot := env.NewSlotIn(nKey, bucket, mapInfo[nId].service);
      slot in vvNew && vvNew[slot] == nId
    }

    method Good_(service: Service, nTime: int, nRnd: int)
      requires Valid() && 0 <= nRnd < NEW_BUCKET_COUNT
      modifies this
      ensures Now() == Good(env, old(Now()), service, nTime)
    {
      nLastGood := nTime;
      var found, nId := Find(service.ip);
      if !found || mapInfo[nId].service != service {
        return;
      }
      var fInTried := Stamp(nId, nTime);
      if fInTried {
        return;
      }
      MoveToTried(nId, nRnd);
    }

    method Stamp(nId: int, nTime: int) returns (fInTried: bool)
      requires Valid() && nId in mapInfo
      modifies this`mapInfo
      ensures Valid()
      ensures Now() == old(Succeeded(Now(), nId, nTime).(nLastGood := nLastGood))
      ensures fInTried == mapInfo[nId].fInTried
    {
      var info := mapInfo[nId].(nLastSuccess := nTime, nLastTry := nTime, nAttempts := 0);
      SetInfoPartial(env, Now(), nId, info, {}, 0);
      mapInfo := mapInfo[nId := info];
      fInTried := info.fInTried;
    }

    method MoveToTried(nId: int, nRnd: int)
      requires Valid() && nId in mapInfo && !mapInfo[nId].fInTried && 0 <= nRnd < NEW_BUCKET_COUNT
      modifies this
      ensures Now() == AddrMan.MakeTried(env, old(Now()), nId)
    {
      var nUBucket := FindBucket(nId, nRnd);
      if nUBucket == -1 {
        return;
      }
      MakeTried(nId);
    }

    // lucky says whether RandomInt(nFactor) returned 0.
    method Add_(addr: Address, source: Ip, nTimePenalty: int, now: int, lucky: bool) returns (fNew: bool)
      requires Valid()
      modifies this
      ensures Now() == Add(env, old(Now()), addr, source, nTimePenalty, now, lucky)
      ensures fNew <==> AddReturns(env, old(Now()), addr)
    {
      if !env.routable(addr.service.ip) {
        return false;
      }
      var found, nId := Find(addr.service.ip);
      if found {
        AddKnown(nId, addr, source, nTimePenalty, now, lucky);
        return false;
      }
      AddUnknown(addr, source, nTimePenalty, now);
      return true;
    }

    method AddKnown(nId: int, addr: Address, source: Ip, nTimePenalty: int, now: int, lucky: bool)
      requires Valid() && nId in mapInfo
      modifies this
      ensures var info := Refreshed(old(mapInfo[nId]), addr, nTimePenalty, now);
        var t := SetInfo(old(Now()), nId, info);
        Now() == if WantsRef(info, addr, lucky) then Place(env, t, nId, source, now) else t
    {
      ghost var s := Now();
      var more := Refresh(nId, addr, nTimePenalty, now, lucky);
      if !more {
        return;
      }
      assert CanPlace(env, Now(), nId) by {
        SetInfoPartial(env, s, nId, Refreshed(s.mapInfo[nId], addr, nTimePenalty, now), {}, 0);
        PartialCanPlace(env, Now(), nId, {});
      }
      PlaceNew(nId, source, now);
    }

    method AddUnknown(addr: Address, source: Ip, nTimePenalty: int, now: int)
      requires Valid() && !Known(Now(), addr.service.ip)
      modifies this
      ensures Now() == Place(env, Created(old(Now()), addr, source, nTimePenalty), old(nIdCount), source, now)
    {
      ghost var s := Now();
      var nId := CreateNew(addr, source, nTimePenalty);
      assert CanPlace(env, Now(), nId) by {
        CreatedPartial(env, s, addr, source, nTimePenalty);
        PartialCanPlace(env, Now(), nId, {nId});
      }
      PlaceNew(nId, source, now);
    }

    method CreateNew(addr: Address, source: Ip, nTimePenalty: int) returns (nId: int)
      modifies this
      ensures nId == old(nIdCount) && Now() == Created(old(Now()), addr, source, nTimePenalty)
    {
      nId := Create(addr, source);
      var nTime := if mapInfo[nId].nTime - nTimePenalty > 0 then mapInfo[nId].nTime - nTimePenalty else 0;
      mapInfo := mapInfo[nId := mapInfo[nId].(nTime := nTime)];
      nNew := nNew + 1;
    }

    // The branch of Add_ for an address that is already known; more says that it may get one more
    // reference.
    method Refresh(nId: int, addr: Address, nTimePenalty: int, now: int, lucky: bool) returns (more: bool)
      requires nId in mapInfo
      modifies this`mapInfo
      ensures Now() == SetInfo(old(Now()), nId, Refreshed(old(mapInfo[nId]), addr, nTimePenalty, now))
      ensures more <==> WantsRef(Refreshed(old(mapInfo[nId]), addr, nTimePenalty, now), addr, lucky)
    {
      var info := Update(mapInfo[nId], addr, nTimePenalty, now);
      mapInfo := mapInfo[nId := info];
      more := MayAddRef(info, addr, lucky);
    }

    static method Update(known: Info, addr: Address, nTimePenalty: int, now: int) returns (info: Info)
      ensures info == Refreshed(known, addr, nTimePenalty, now)
    {
      info := known;
      var fCurrentlyOnline := now - addr.nTime < 24 * 60 * 60;
      var nUpdateInterval := if fCurrentlyOnline then 60 * 60 else 24 * 60 * 60;
      if addr.nTime != 0 && (info.nTime == 0 || info.nTime < addr.nTime - nUpdateInterval - nTimePenalty) {
        info := info.(nTime := if addr.nTime - nTimePenalty > 0 then addr.nTime - nTimePenalty else 0);
      }
      info := info.(nServices := info.nServices + addr.nServices);
    }

    static method MayAddRef(info: Info, addr: Address, lucky: bool) returns (more: bool)
      ensures more <==> WantsRef(info, addr, lucky)
    {
      if addr.nTime == 0 || (info.nTime != 0 && addr.nTime <= info.nTime) {
        return false;
      }
      if info.fInTried {
        return false;
      }
      if info.nRefCount == NEW_BUCKETS_PER_ADDRESS {
        return false;
      }
      more := StochasticTest(info.nRefCount, lucky);
    }

    // Each reference an address has makes another one twice as hard to get.
    static method StochasticTest(nRefCount: int, lucky: bool) returns (pass: bool)
      ensures pass <==> lucky || nRefCount <= 0
    {
      var nFactor := 1;
      var n := 0;
      while n < nRefCount
        invariant 0 <= n && nFactor >= 1 && (n > 0 ==> nFactor > 1) && (n == 0 ==> nFactor == 1)
        invariant n <= nRefCount || n == 0
      {
        nFactor := nFactor * 2;
        n := n + 1;
      }
      pass := !(nFactor > 1 && !lucky);
    }

    method PlaceNew(nId: int, source: Ip, now: int)
      requires CanPlace(env, Now(), nId)
      modifies this
      ensures Now() == Place(env, old(Now()), nId, source, now)
    {
      var slot := env.NewSlot(nKey, mapInfo[nId].service, source);
      assert Clearable(Now(), slot);
      if slot !in vvNew || vvNew[slot] != nId {
        var fInsert := slot !in vvNew;
        if !fInsert {
          var infoExisting := mapInfo[vvNew[slot]];
          if IsTerrible(infoExisting, now) || (infoExisting.nRefCount > 1 && mapInfo[nId].nRefCount == 0) {
            fInsert := true;
          }
        }
        if fInsert {
          ClearNewFrame(Now(), slot, nId);
          ClearNew(slot);
          Refer(nId, slot);
        } else {
          if mapInfo[nId].nRefCount == 0 {
            Delete(nId);
          }
        }
      }
    }

    method Attempt_(service: Service, nTime: int)
      modifies this
      ensures Now() == Attempt(old(Now()), service, nTime)
    {
      var found, nId := Find(service.ip);
      if !found || mapInfo[nId].service != service {
        return;
      }
      mapInfo := mapInfo[nId := mapInfo[nId].(nLastTry := nTime)];
      if mapInfo[nId].nLastCountAttempt < nLastGood {
        mapInfo := mapInfo[nId := mapInfo[nId].(nLastCountAttempt := nTime)];
        mapInfo := mapInfo[nId := mapInfo[nId].(nAttempts := mapInfo[nId].nAttempts + 1)];
      }
    }

    method Connected_(service: Service, nTime: int)
      modifies this
      ensures Now() == Connected(old(Now()), service, nTime)
    {
      var found, nId := Find(service.ip);
      if !found || mapInfo[nId].service != service {
        return;
      }
      if nTime - mapInfo[nId].nTime > 20 * 60 {
        mapInfo := mapInfo[nId := mapInfo[nId].(nTime := nTime)];
      }
    }

    method SetServices_(service: Service, nServices: Services)
      modifies this
      ensures Now() == SetServices(old(Now()), service, nServices)
    {
      var found, nId := Find(service.ip);
      if !found || mapInfo[nId].service != service {
        return;
      }
      mapInfo := mapInfo[nId := mapInfo[nId].(nServices := nServices)];
    }

    // Gathers random entries that are not terrible, shuffling the front of vRandom as it goes: as many
    // as may be told, or else all there are. No address is returned twice, and only the order of the
    // entries changes.
    method GetAddr_(now: int) returns (vAddr: seq<Info>)
      requires Valid()
      modifies this`mapInfo, this`vRandom
      ensures Valid() && OnlyOrder(old(mapInfo), mapInfo) && |vRandom| == old(|vRandom|)
      ensures |vAddr| <= GETADDR_MAX && |vAddr| * 100 <= GETADDR_MAX_PCT * |vRandom|
      ensures |vAddr| == GETADDR_MAX || (|vAddr| + 1) * 100 > GETADDR_MAX_PCT * |vRandom|
           || forall id :: id in mapInfo && !IsTerrible(mapInfo[id], now) ==> mapInfo[id] in vAddr
      ensures forall i :: 0 <= i < |vAddr| ==> vAddr[i] in mapInfo.Values && !IsTerrible(vAddr[i], now)
      ensures forall i, j :: 0 <= i < j < |vAddr| ==> vAddr[i].service.ip != vAddr[j].service.ip
    {
      var nNodes := HowMany();
      vAddr := Gather(nNodes, now);
      GatheredValid(old(Now()), vAddr, now);
    }

    lemma GatheredValid(s: State, vAddr: seq<Info>, now: int)
      requires Inv(env, s) && OnlyOrder(s.mapInfo, mapInfo) && RandomOk(vRandom, mapInfo)
      requires Now() == s.(mapInfo := mapInfo, vRandom := vRandom)
      requires forall i :: 0 <= i < |vAddr| ==> Gathered(vAddr[i], |vRandom|, now)
      requires forall i, j :: 0 <= i < j < |vAddr| ==> vAddr[i].nRandomPos < vAddr[j].nRandomPos
      ensures Valid()
      ensures forall i :: 0 <= i < |vAddr| ==> vAddr[i] in mapInfo.Values && !IsTerrible(vAddr[i], now)
      ensures forall i, j :: 0 <= i < j < |vAddr| ==> vAddr[i].service.ip != vAddr[j].service.ip
    {
      OnlyOrderInv(env, s, mapInfo, vRandom);
      Distinct(vAddr, |vRandom|, now);
    }

    method HowMany() returns (nNodes: int)
      ensures 0 <= nNodes <= GETADDR_MAX && nNodes * 100 <= GETADDR_MAX_PCT * |vRandom|
      ensures nNodes == GETADDR_MAX || (nNodes + 1) * 100 > GETADDR_MAX_PCT * |vRandom|
    {
      nNodes := GETADDR_MAX_PCT * |vRandom| / 100;
      if nNodes > GETADDR_MAX {
        nNodes := GETADDR_MAX;
      }
    }

    method Gather(nNodes: int, now: int) returns (vAddr: seq<Info>)
      requires RandomOk(vRandom, mapInfo) && nNodes >= 0
      modifies this`mapInfo, this`vRandom
      ensures RandomOk(vRandom, mapInfo) && OnlyOrder(old(mapInfo), mapInfo) && |vRandom| == old(|vRandom|)
      ensures |vAddr| <= nNodes
      ensures |vAddr| == nNodes
           || forall id :: id in mapInfo && !IsTerrible(mapInfo[id], now) ==> mapInfo[id] in vAddr
      ensures forall i :: 0 <= i < |vAddr| ==> Gathered(vAddr[i], |vRandom|, now)
      ensures forall i, j :: 0 <= i < j < |vAddr| ==> vAddr[i].nRandomPos < vAddr[j].nRandomPos
    {
      vAddr := [];
      var n := 0;
      while n < |vRandom| && |vAddr| < nNodes
        invariant 0 <= n <= |vRandom| == old(|vRandom|) && |vAddr| <= nNodes
        invariant RandomOk(vRandom, mapInfo) && OnlyOrder(old(mapInfo), mapInfo)
        invariant NoneMissed(vAddr, n, now)
        invariant forall i :: 0 <= i < |vAddr| ==> Gathered(vAddr[i], n, now)
        invariant forall i, j :: 0 <= i < j < |vAddr| ==> vAddr[i].nRandomPos < vAddr[j].nRandomPos
        decreases |vRandom| - n
      {
        var nRndPos :| n <= nRndPos < |vRandom|;
        ghost var s := Now();
        SwapStep(n, nRndPos);
        OnlyOrderTwice(old(mapInfo), s.mapInfo, mapInfo);
        GatheredStays(s, vAddr, n, now);
        vAddr := Take(vAddr, n, now);
        n := n + 1;
      }
    }

    // Every entry in the first n places of the random order is taken or terrible.
    ghost predicate NoneMissed(vAddr: seq<Info>, n: int, now: int)
      reads this
    {
      forall i :: 0 <= i < n && i < |vRandom| ==>
        var id := vRandom[i]; id in mapInfo && (IsTerrible(mapInfo[id], now) || mapInfo[id] in vAddr)
    }

    // Takes the entry at position n of the random order, unless it is terrible.
    method Take(vAddr: seq<Info>, n: int, now: int) returns (r: seq<Info>)
      requires RandomOk(vRandom, mapInfo) && 0 <= n < |vRandom| && NoneMissed(vAddr, n, now)
      requires forall i :: 0 <= i < |vAddr| ==> Gathered(vAddr[i], n, now)
      requires forall i, j :: 0 <= i < j < |vAddr| ==> vAddr[i].nRandomPos < vAddr[j].nRandomPos
      ensures |r| <= |vAddr| + 1 && NoneMissed(r, n + 1, now)
      ensures forall i :: 0 <= i < |r| ==> Gathered(r[i], n + 1, now)
      ensures forall i, j :: 0 <= i < j < |r| ==> r[i].nRandomPos < r[j].nRandomPos
    {
      assert vRandom[n] in mapInfo;
      var ai := mapInfo[vRandom[n]];
      r := if IsTerrible(ai, now) then vAddr else vAddr + [ai];
      forall i | 0 <= i < |r|
        ensures Gathered(r[i], n + 1, now)
      {
        assert i < |vAddr| ==> Gathered(vAddr[i], n, now);
      }
    }

    // What was gathered before a swap behind it is still what its place says.
    lemma GatheredStays(s: State, vAddr: seq<Info>, n: int, now: int)
      requires 0 <= n <= |vRandom| == |s.vRandom|
      requires forall i :: 0 <= i < |vAddr| ==>
        var pos := vAddr[i].nRandomPos;
        && 0 <= pos < n && !IsTerrible(vAddr[i], now)
        && s.vRandom[pos] in s.mapInfo && s.mapInfo[s.vRandom[pos]] == vAddr[i]
      requires forall i :: 0 <= i < n ==> var id := vRandom[i];
        id == s.vRandom[i] && id in s.mapInfo && id in mapInfo && mapInfo[id] == s.mapInfo[id]
      ensures forall i :: 0 <= i < |vAddr| ==> Gathered(vAddr[i], n, now)
    {}

    // An entry from the shuffled front of the random order.
    ghost predicate Gathered(info: Info, n: int, now: int)
      reads this
    {
      && 0 <= info.nRandomPos < n && n <= |vRandom| && !IsTerrible(info, now)
      && var id := vRandom[info.nRandomPos]; id in mapInfo && mapInfo[id] == info
    }

    lemma Distinct(vAddr: seq<Info>, n: int, now: int)
      requires AddrOk(mapAddr, mapInfo) && RandomOk(vRandom, mapInfo)
      requires forall i :: 0 <= i < |vAddr| ==> Gathered(vAddr[i], n, now)
      requires forall i, j :: 0 <= i < j < |vAddr| ==> vAddr[i].nRandomPos < vAddr[j].nRandomPos
      ensures forall i :: 0 <= i < |vAddr| ==> vAddr[i] in mapInfo.Values && !IsTerrible(vAddr[i], now)
      ensures forall i, j :: 0 <= i < j < |vAddr| ==> vAddr[i].service.ip != vAddr[j].service.ip
    {
      forall i | 0 <= i < |vAddr|
        ensures vAddr[i] in mapInfo.Values
      {
        assert Gathered(vAddr[i], n, now);
      }
      forall i, j | 0 <= i < j < |vAddr|
        ensures vAddr[i].service.ip != vAddr[j].service.ip
      {
        assert Gathered(vAddr[i], n, now) && Gathered(vAddr[j], n, now);
      }
    }

    method SwapStep(n: int, nRndPos: int)
      requires RandomOk(vRandom, mapInfo) && 0 <= n <= nRndPos < |vRandom|
      modifies this`mapInfo, this`vRandom
      ensures RandomOk(vRandom, mapInfo) && OnlyOrder(old(mapInfo), mapInfo) && |vRandom| == old(|vRandom|)
      ensures forall i :: 0 <= i < n ==> var id := vRandom[i];
        id == old(vRandom[i]) && id in old(mapInfo) && id in mapInfo && mapInfo[id] == old(mapInfo)[id]
    {
      if n != nRndPos {
        SwapOnlyOrder(vRandom, mapInfo, n, nRndPos);
        RandomSwap(vRandom, mapInfo, n, nRndPos);
      }
      SwapRandom(n, nRndPos);
    }

    // Ids and counters as far as writing relies on them.
    ghost predicate Countable()
      reads this
    {
      && 0 <= nIdCount && (forall id :: id in mapInfo ==> 0 <= id < nIdCount)
      && |NewIds(mapInfo, nIdCount)| == nNew && |TriedIds(mapInfo, nIdCount)| == nTried
      && forall slot :: slot in vvNew ==> var id := vvNew[slot]; id in mapInfo && id >= 0
    }

    // Writes entries in the order of mapInfo; the ranks given to new entries stand for them in buckets.
    method Serialize() returns (saved: Saved)
      requires Valid()
      ensures Savable(Now()) && saved == Save(Now())
    {
      InvSavable(env, Now());
      assert Countable() by {
        NewsListed(env, Now());
        TriedsListed(env, Now());
      }
      var news, mapUnkIds := WriteNew();
      var trieds := WriteTried();
      var buckets := [];
      for bucket := 0 to NEW_BUCKET_COUNT
        invariant buckets == Buckets(mapInfo, vvNew, BUCKET_SIZE, bucket)
      {
        var entries := WriteBucket(bucket, BUCKET_SIZE, mapUnkIds);
        buckets := buckets + [entries];
      }
      saved := Saved(1, nKey, nNew, nTried, Xor(NEW_BUCKET_COUNT, BUCKETS_MARK), news, trieds, buckets);
    }

    method WriteNew() returns (news: seq<Info>, mapUnkIds: map<int, int>)
      requires Countable()
      ensures var ids := NewIds(mapInfo, nIdCount);
        (forall i :: 0 <= i < |ids| ==> ids[i] in mapInfo) && news == DiskInfos(mapInfo, ids)
      ensures forall id :: id in mapInfo ==> id in mapUnkIds && mapUnkIds[id] == Rank(mapInfo, id)
    {
      news, mapUnkIds := [], map[];
      var nIds := 0;
      for id := 0 to nIdCount
        invariant nIds == |NewIds(mapInfo, id)|
        invariant forall i :: 0 <= i < nIds ==> NewIds(mapInfo, id)[i] in mapInfo
        invariant news == DiskInfos(mapInfo, NewIds(mapInfo, id))
        invariant forall k :: k in mapInfo && k < id ==> k in mapUnkIds && mapUnkIds[k] == Rank(mapInfo, k)
      {
        IdsStep(mapInfo, id);
        if id in mapInfo {
          mapUnkIds := mapUnkIds[id := nIds];
          if mapInfo[id].nRefCount != 0 {
            RankIsIndex(mapInfo, nIdCount, id);
            assert nIds != nNew;
            DiskSnoc(mapInfo, NewIds(mapInfo, id), id);
            news := news + [OnDisk(mapInfo[id])];
            nIds := nIds + 1;
          }
        }
      }
    }

    method WriteTried() returns (trieds: seq<Info>)
      requires Countable()
      ensures var ids := TriedIds(mapInfo, nIdCount);
        (forall i :: 0 <= i < |ids| ==> ids[i] in mapInfo) && trieds == DiskInfos(mapInfo, ids)
    {
      trieds := [];
      var nIds := 0;
      for id := 0 to nIdCount
        invariant nIds == |TriedIds(mapInfo, id)|
        invariant forall i :: 0 <= i < nIds ==> TriedIds(mapInfo, id)[i] in mapInfo
        invariant trieds == DiskInfos(mapInfo, TriedIds(mapInfo, id))
      {
        IdsStep(mapInfo, id);
        if id in mapInfo && mapInfo[id].fInTried {
          FewerTried(mapInfo, nIdCount, id);
          assert nIds != nTried;
          DiskSnoc(mapInfo, TriedIds(mapInfo, id), id);
          trieds := trieds + [OnDisk(mapInfo[id])];
          nIds := nIds + 1;
        }
      }
    }

    method WriteBucket(bucket: nat, size: nat, mapUnkIds: map<int, int>) returns (entries: seq<int>)
      requires forall slot :: slot in vvNew ==>
                                var id := vvNew[slot];
                                id >= 0 && id in mapUnkIds && mapUnkIds[id] == Rank(mapInfo, id)
      ensures entries == Entries(mapInfo, vvNew, bucket, size)
    {
      entries := [];
      for i := 0 to size
        invariant entries == Entries(mapInfo, vvNew, bucket, i)
      {
        var slot := Slot(bucket, i);
        if slot in vvNew {
          var id := vvNew[slot];
          entries := entries + [mapUnkIds[id]];
        }
        EntriesStep(mapInfo, vvNew, bucket, i);
      }
    }

    // Rebuilds a manager from a file; one beyond the limits throws before any entry is read. What the
    // random order and the tables hold does not matter, but the maps must be empty.
    method Unserialize(saved: Saved, key: nat) returns (ok: bool)
      requires mapInfo == map[] && mapAddr == map[] && WellFormed(saved)
      modifies this
      ensures ok <==> WithinLimits(saved)
      ensures Now() == if ok then Load(env, saved) else Start(saved)
    {
      Clear(key);
      nKey, nNew, nTried := saved.nKey, saved.nNew, saved.nTried;
      if nNew > NEW_BUCKET_COUNT * BUCKET_SIZE {
        return false;
      }
      if nTried > TRIED_BUCKET_COUNT * BUCKET_SIZE {
        return false;
      }
      ok := true;
      ReadNew(saved.news, saved.nVersion == 1 && BucketCount(saved) == NEW_BUCKET_COUNT);
      ReadTried(saved.trieds);
      ReadBuckets(saved);
      Prune();
    }

    // One entry of the new table. If the saved positions cannot be used it is placed at once.
    method ReadNewEntry(n: nat, entry: Info, usable: bool)
      requires Loading(mapInfo, vRandom, n)
      modifies this`mapInfo, this`mapAddr, this`vRandom, this`vvNew
      ensures Now() == AddNew(env, old(Now()).(nIdCount := n), entry, usable).(nIdCount := nIdCount)
      ensures Loading(mapInfo, vRandom, n + 1) && n in mapInfo && forall k :: k in old(mapInfo) ==> k in mapInfo
    {
      var info := entry.(nRefCount := 0);
      mapAddr := mapAddr[info.service.ip := n];
      info := info.(nRandomPos := |vRandom|);
      LoadingGrows(mapInfo, vRandom, n, info);
      LoadingGrows(mapInfo, vRandom, n, info.(nRefCount := 1));
      vRandom := vRandom + [n];
      if !usable {
        var slot := env.NewSlot(nKey, info.service, info.source);
        if slot !in vvNew {
          vvNew := vvNew[slot := n];
          info := info.(nRefCount := info.nRefCount + 1);
        }
      }
      mapInfo := mapInfo[n := info];
    }

    method ReadNew(news: seq<Info>, usable: bool)
      requires Loading(mapInfo, vRandom, nIdCount) && nIdCount == 0 && nNew == |news|
      modifies this
      ensures Now() == AddNews(env, old(Now()), news, usable)
      ensures Loading(mapInfo, vRandom, nIdCount) && forall k :: 0 <= k < nNew ==> k in mapInfo
      ensures nNew == old(nNew) && nTried == old(nTried)
    {
      ghost var s := Now();
      for n := 0 to nNew
        invariant Now().(nIdCount := n) == AddNews(env, s, news[..n], usable)
        invariant nNew == s.nNew && nTried == s.nTried
        invariant Loading(mapInfo, vRandom, n) && forall k :: 0 <= k < n ==> k in mapInfo
      {
        AddNewsSnoc(env, s, news, n, usable);
        ReadNewEntry(n, news[n], usable);
      }
      assert news[..nNew] == news;
      nIdCount := nNew;
    }

    // One entry of the tried table, unless its slot is taken.
    method ReadTriedEntry(entry: Info) returns (lost: bool)
      requires Loading(mapInfo, vRandom, nIdCount)
      modifies this`mapInfo, this`mapAddr, this`vRandom, this`vvTried, this`nIdCount
      ensures Now() == AddTried(env, old(Now()), entry).(nTried := nTried)
      ensures AddTried(env, old(Now()), entry).nTried == nTried - if lost then 1 else 0
      ensures Loading(mapInfo, vRandom, nIdCount) && forall k :: k in old(mapInfo) ==> k in mapInfo
    {
      var slot := env.TriedSlot(nKey, entry.service);
      lost := slot in vvTried;
      if !lost {
        var info := entry.(nRandomPos := |vRandom|, fInTried := true);
        LoadingGrows(mapInfo, vRandom, nIdCount, info);
        vRandom := vRandom + [nIdCount];
        mapInfo := mapInfo[nIdCount := info];
        mapAddr := mapAddr[info.service.ip := nIdCount];
        vvTried := vvTried[slot := nIdCount];
        nIdCount := nIdCount + 1;
      }
    }

    method ReadTried(trieds: seq<Info>)
      requires Loading(mapInfo, vRandom, nIdCount) && nTried == |trieds|
      modifies this
      ensures Now() == AddTrieds(env, old(Now()), trieds)
      ensures Loading(mapInfo, vRandom, nIdCount) && nNew == old(nNew) && forall k :: k in old(mapInfo) ==> k in mapInfo
    {
      var nLost := 0;
      ghost var s, t := Now(), Now();
      for n := 0 to nTried
        invariant t == AddTrieds(env, s, trieds[..n]) && t.nTried == nTried - nLost
        invariant Now() == t.(nTried := nTried) && nTried == s.nTried && nNew == s.nNew
        invariant Loading(mapInfo, vRandom, nIdCount) && forall k :: k in s.mapInfo ==> k in mapInfo
      {
        AddTriedsSnoc(env, s, trieds, n);
        var lost := ReadTriedEntry(trieds[n]);
        t := AddTried(env, t, trieds[n]);
        if lost {
          nLost := nLost + 1;
        }
      }
      assert trieds[..|trieds|] == trieds;
      nTried := nTried - nLost;
    }

    method ReadBuckets(saved: Saved)
      requires Loading(mapInfo, vRandom, nIdCount) && nNew == saved.nNew && forall k :: 0 <= k < nNew ==> k in mapInfo
      modifies this`mapInfo, this`vvNew
      ensures Now() == AddBuckets(env, old(Now()), saved.nNew, saved.buckets, Usable(saved))
      ensures Loading(mapInfo, vRandom, nIdCount)
    {
      ghost var s := Now();
      for bucket := 0 to |saved.buckets|
        invariant Now() == AddBuckets(env, s, saved.nNew, saved.buckets[..bucket], Usable(saved))
        invariant Loading(mapInfo, vRandom, nIdCount) && forall k :: 0 <= k < nNew ==> k in mapInfo
      {
        assert saved.buckets[..bucket + 1][..bucket] == saved.buckets[..bucket];
        ReadBucket(saved, bucket);
      }
      assert saved.buckets[..|saved.buckets|] == saved.buckets;
    }

    method ReadBucket(saved: Saved, bucket: nat)
      requires bucket < |saved.buckets|
      requires Loading(mapInfo, vRandom, nIdCount) && nNew == saved.nNew && forall k :: 0 <= k < nNew ==> k in mapInfo
      modifies this`mapInfo, this`vvNew
      ensures Now() == AddEntries(env, old(Now()), saved.nNew, bucket, saved.buckets[bucket], Usable(saved))
      ensures Loading(mapInfo, vRandom, nIdCount) && forall k :: 0 <= k < nNew ==> k in mapInfo
    {
      ghost var s := Now();
      var entries := saved.buckets[bucket];
      for n := 0 to |entries|
        invariant Now() == AddEntries(env, s, saved.nNew, bucket, entries[..n], Usable(saved))
        invariant Loading(mapInfo, vRandom, nIdCount) && forall k :: 0 <= k < nNew ==> k in mapInfo
      {
        assert entries[..n + 1][..n] == entries[..n];
        ReadIndex(bucket, entries[n], saved.nVersion == 1 && BucketCount(saved) == NEW_BUCKET_COUNT);
      }
      assert entries[..|entries|] == entries;
    }

    // One saved position of the new table.
    method ReadIndex(bucket: nat, nIndex: int, usable: bool)
      requires Loading(mapInfo, vRandom, nIdCount) && forall k :: 0 <= k < nNew ==> k in mapInfo
      modifies this`mapInfo, this`vvNew
      ensures Now() == AddEntry(env, old(Now()), nNew, bucket, nIndex, usable)
      ensures Loading(mapInfo, vRandom, nIdCount) && forall k :: k in old(mapInfo) ==> k in mapInfo
    {
      if nIndex >= 0 && nIndex < nNew {
        var info := mapInfo[nIndex];
        var slot := env.NewSlotIn(nKey, bucket, info.service);
        if usable && slot !in vvNew && info.nRefCount < NEW_BUCKETS_PER_ADDRESS {
          LoadingCounted(mapInfo, vRandom, nIdCount, nIndex);
          Refer(nIndex, slot);
        }
      }
    }

    // Deletes new entries that got no reference because of collisions.
    method Prune()
      requires Loading(mapInfo, vRandom, nIdCount)
      modifies this
      ensures Now() == Pruned(old(Now()), old(nIdCount))
    {
      ghost var s := Now();
      var nLostUnk := 0;
      for id := 0 to nIdCount
        invariant nIdCount == s.nIdCount && RandomOk(vRandom, mapInfo) && Now() == Pruned(s, id)
      {
        var lost := PruneOne(id);
        if lost {
          nLostUnk := nLostUnk + 1;
        }
      }
    }

    method PruneOne(id: int) returns (lost: bool)
      requires RandomOk(vRandom, mapInfo)
      modifies this
      ensures Now() == PrunedOne(old(Now()), id) && RandomOk(vRandom, mapInfo) && nIdCount == old(nIdCount)
    {
      lost := id in mapInfo && !mapInfo[id].fInTried && mapInfo[id].nRefCount == 0;
      if lost {
        DeleteRandom(Now(), id);
        Delete(id);
      }
    }
  }

  // The search starts from bucket start and has looked at n buckets, wrapping around.
  ghost predicate Visited(bucket: int, start: int, n: int) {
    && 0 <= bucket < NEW_BUCKET_COUNT
    && (if bucket >= start then bucket - start else bucket - start + NEW_BUCKET_COUNT) < n
  }

  // What Place needs to know about the entry and about whoever holds its slot.
  ghost predicate CanPlace(env: Env, s: State, id: int) {
    && id in s.mapInfo && !s.mapInfo[id].fInTried && RandomOk(s.vRandom, s.mapInfo)
    && forall slot :: slot in s.vvNew ==> Clearable(s, slot)
  }

  lemma PartialCanPlace(env: Env, s: State, id: int, loose: set<int>)
    requires Partial(env, s, loose, 0) && id in s.mapInfo && !s.mapInfo[id].fInTried
    ensures CanPlace(env, s, id)
  {
    forall slot | slot in s.vvNew
      ensures Clearable(s, slot)
    {
      PartialClearable(env, s, slot, loose, 0);
    }
  }

  // The two differ only in the entries' places in the random order.
  ghost predicate OnlyOrder(infos: Infos, infos': Infos) {
    (forall id :: id in infos <==> id in infos') && forall id :: id in infos && id in infos' ==>
      infos'[id] == infos[id].(nRandomPos := infos'[id].nRandomPos)
  }

  lemma OnlyOrderInv(env: Env, s: State, infos: Infos, vRandom: seq<int>)
    requires Inv(env, s) && OnlyOrder(s.mapInfo, infos) && RandomOk(vRandom, infos)
    ensures Inv(env, s.(mapInfo := infos, vRandom := vRandom))
    ensures AddrOk(s.mapAddr, infos)
  {
    assert SameInTables(s.mapInfo, infos);
    assert InfoOk(infos, s.nIdCount);
    SamePartial(env, s, s.(mapInfo := infos, vRandom := vRandom), {}, 0);
  }

  lemma SwapOnlyOrder(vRandom: seq<int>, infos: Infos, i: int, j: int)
    requires RandomOk(vRandom, infos) && 0 <= i <= j < |vRandom|
    ensures OnlyOrder(infos, SwappedInfos(vRandom, infos, i, j))
    ensures forall k :: 0 <= k < i ==> var id := vRandom[k];
      id in infos && id in SwappedInfos(vRandom, infos, i, j) && SwappedInfos(vRandom, infos, i, j)[id] == infos[id]
  {
  }

  // What ClearNew needs to know about the entry it finds.
  ghost predicate Clearable(s: State, slot: Slot) {
    slot in s.vvNew ==>
      && Refers(s, slot) && s.mapInfo[s.vvNew[slot]].nRefCount >= 1 && !s.mapInfo[s.vvNew[slot]].fInTried
  }

  lemma PartialClearable(env: Env, s: State, slot: Slot, loose: set<int>, uncounted: nat)
    requires Partial(env, s, loose, uncounted)
    ensures Clearable(s, slot) && RandomOk(s.vRandom, s.mapInfo)
  {
    if slot in s.vvNew {
      NotLoose(env, s, slot, loose, uncounted);
    }
  }

  // What the eviction needs to know about the entry in a tried slot and about its place in new.
  ghost predicate CanEvict(env: Env, s: State, slot: Slot) {
    slot in s.vvTried && var id := s.vvTried[slot];
    && id in s.mapInfo
    && var out, newSlot := Demoted(s, slot), env.NewSlot(s.nKey, s.mapInfo[id].service, s.mapInfo[id].source);
    && Clearable(out, newSlot) && RandomOk(out.vRandom, out.mapInfo)
    && Survives(out, AddrMan.ClearNew(out, newSlot), id) && s.mapInfo[id].nRefCount == 0
    && newSlot !in AddrMan.ClearNew(out, newSlot).vvNew
  }

  lemma PartialCanEvict(env: Env, s: State, slot: Slot, loose: int)
    requires Partial(env, s, {loose}, 1) && loose in s.mapInfo && !s.mapInfo[loose].fInTried && slot in s.vvTried
    ensures CanEvict(env, s, slot)
  {
    TriedIsInfo(env, s, slot, {loose}, 1);
    var id, out := s.vvTried[slot], Demoted(s, slot);
    assert Partial(env, out, {loose} + {id}, 2) && out.mapInfo[id].nRefCount == 0 by {
      DemotePartial(env, s, slot, {loose}, 1);
    }
    var newSlot := env.NewSlot(s.nKey, s.mapInfo[id].service, s.mapInfo[id].source);
    PartialClearable(env, out, newSlot, {loose} + {id}, 2);
    LooseSurvives(env, out, newSlot, id, {loose} + {id}, 2);
  }

  lemma OnlyOrderTwice(a: Infos, b: Infos, c: Infos)
    requires OnlyOrder(a, b) && OnlyOrder(b, c)
    ensures OnlyOrder(a, c)
  {}

  // After the sweep the entry is in no table, and ready to take a tried slot.
  lemma RoomReady(env: Env, s: State, t: State, id: int)
    requires Inv(env, s) && id in s.mapInfo && !s.mapInfo[id].fInTried
    requires var u := Sweep(env, s, id, NEW_BUCKET_COUNT); t == u.(nNew := u.nNew - 1)
    ensures Partial(env, t, {id}, 1) && id in t.mapInfo && !t.mapInfo[id].fInTried && t.mapInfo[id].nRefCount == 0
  {
    SweepLeadsOut(env, s, id);
  }
}
