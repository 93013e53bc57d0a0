/** The address manager's state and operations, as values. */
module AddrMan {
  // Six structures describe one set of addresses: mapInfo by id, mapAddr by IP, the random order
  // vRandom, the two bucket tables and the two counters. A table is a map from occupied slots to ids:
  // a slot that holds -1 in the program is absent here.

  const TRIED_BUCKET_COUNT := 256
  const NEW_BUCKET_COUNT := 1024
  const BUCKET_SIZE := 64
  const NEW_BUCKETS_PER_ADDRESS := 8
  const HORIZON_DAYS := 30
  const RETRIES := 3
  const MAX_FAILURES := 10
  const MIN_FAIL_DAYS := 7
  const GETADDR_MAX_PCT := 23
  const GETADDR_MAX := 2500

  datatype Ip = Ip(id: nat)

  // An IP with a port. Entries are found by IP alone.
  datatype Service = Service(ip: Ip, port: nat)

  // The service flags, as the set of bits that are on.
  type Services = set<nat>

  datatype Address = Address(service: Service, nServices: Services, nTime: nat)

  datatype Info = Info(
    service: Service, nServices: Services, nTime: int, source: Ip,
    nLastTry: int, nLastCountAttempt: int, nLastSuccess: int, nAttempts: int,
    nRefCount: int, fInTried: bool, nRandomPos: int)

  datatype Slot = Slot(bucket: int, pos: int)

  type Table = map<Slot, int>
  type Infos = map<int, Info>

  type TriedIndex = b: int | 0 <= b < TRIED_BUCKET_COUNT
  type NewIndex = b: int | 0 <= b < NEW_BUCKET_COUNT
  type Position = p: int | 0 <= p < BUCKET_SIZE

  // What the manager does not decide itself: the keyed hashes, reduced to their ranges, and which
  // addresses are routable.
  datatype Env = Env(
    triedBucket: (nat, Service) -> TriedIndex,
    newBucket: (nat, Service, Ip) -> NewIndex,
    position: (nat, bool, int, Service) -> Position,
    routable: Ip -> bool)
  {
    function TriedSlot(key: nat, service: Service): (r: Slot) {
      Slot(triedBucket(key, service), position(key, false, triedBucket(key, service), service))
    }

    // The slot of an address in a given bucket of the new table.
    function NewSlotIn(key: nat, bucket: int, service: Service): (r: Slot) {
      Slot(bucket, position(key, true, bucket, service))
    }

    function NewSlot(key: nat, service: Service, src: Ip): (r: Slot) {
      NewSlotIn(key, newBucket(key, service, src), service)
    }
  }

  datatype State = State(
    nIdCount: int, mapInfo: Infos, mapAddr: map<Ip, int>, vRandom: seq<int>,
    nTried: int, vvTried: Table, nNew: int, vvNew: Table, nLastGood: int, nKey: nat)

  /* ---- Consistency ---- */

  ghost function News(infos: Infos): (r: set<int>) {
    set id | id in infos && !infos[id].fInTried
  }

  ghost function Trieds(infos: Infos): (r: set<int>) {
    set id | id in infos && infos[id].fInTried
  }

  // The slots of the new table that refer to id.
  ghost function Refs(vvNew: Table, id: int): (r: set<Slot>) {
    set slot | slot in vvNew && vvNew[slot] == id
  }

  ghost predicate InfoOk(infos: Infos, nIdCount: int) {
    0 <= nIdCount && forall id :: id in infos ==> 0 <= id < nIdCount
  }

  // No times before the epoch, and a tried address was reached some time.
  ghost predicate TimesOk(infos: Infos) {
    forall id :: id in infos ==>
      && infos[id].nLastTry >= 0 && infos[id].nLastSuccess >= 0
      && (infos[id].fInTried ==> infos[id].nLastSuccess != 0)
  }

  ghost predicate AddrOk(mapAddr: map<Ip, int>, infos: Infos) {
    && (forall id :: id in infos ==> infos[id].service.ip in mapAddr && mapAddr[infos[id].service.ip] == id)
    && (forall ip :: ip in mapAddr ==> var id := mapAddr[ip]; id in infos && infos[id].service.ip == ip)
  }

  ghost predicate RandomOk(vRandom: seq<int>, infos: Infos) {
    && (forall id :: id in infos ==>
          0 <= infos[id].nRandomPos < |vRandom| && vRandom[infos[id].nRandomPos] == id)
    && (forall i :: 0 <= i < |vRandom| ==> var id := vRandom[i]; id in infos && infos[id].nRandomPos == i)
  }

  ghost predicate TriedOk(env: Env, key: nat, vvTried: Table, infos: Infos) {
    && (forall slot :: slot in vvTried ==>
          var id := vvTried[slot];
          id in infos && infos[id].fInTried && slot == env.TriedSlot(key, infos[id].service))
    && (forall id :: id in infos && infos[id].fInTried ==>
          var slot := env.TriedSlot(key, infos[id].service);
          slot in vvTried && vvTried[slot] == id)
  }

  ghost predicate NewOk(env: Env, key: nat, vvNew: Table, infos: Infos) {
    forall slot :: slot in vvNew ==>
      var id := vvNew[slot];
      && 0 <= slot.bucket < NEW_BUCKET_COUNT
      && id in infos && !infos[id].fInTried
      && slot == env.NewSlotIn(key, slot.bucket, infos[id].service)
  }

  ghost predicate RefsOk(vvNew: Table, infos: Infos) {
    forall id :: id in infos ==> infos[id].nRefCount == |Refs(vvNew, id)|
  }

  // Everything new is referred to by 1 to 8 buckets, except the entries in loose, by none.
  ghost predicate RefCountsOk(infos: Infos, loose: set<int>) {
    forall id :: id in infos && !infos[id].fInTried ==>
      if id in loose then infos[id].nRefCount == 0
      else 1 <= infos[id].nRefCount <= NEW_BUCKETS_PER_ADDRESS
  }

  // The invariant in the middle of an operation: the entries in loose are in no table, and
  // uncounted of the new entries are missing from nNew.
  ghost predicate Partial(env: Env, s: State, loose: set<int>, uncounted: nat) {
    && InfoOk(s.mapInfo, s.nIdCount)
    && AddrOk(s.mapAddr, s.mapInfo)
    && RandomOk(s.vRandom, s.mapInfo)
    && TriedOk(env, s.nKey, s.vvTried, s.mapInfo)
    && NewOk(env, s.nKey, s.vvNew, s.mapInfo)
    && RefsOk(s.vvNew, s.mapInfo)
    && RefCountsOk(s.mapInfo, loose)
    && s.nTried == |Trieds(s.mapInfo)|
    && s.nNew + uncounted == |News(s.mapInfo)|
    && s.nKey != 0
  }

  ghost predicate Inv(env: Env, s: State) {
    Partial(env, s, {}, 0)
  }

  function Empty(key: nat): (r: State) {
    State(0, map[], map[], [], 0, map[], 0, map[], 1, key)
  }

  // Clear empties everything but the two maps.
  function Cleared(s: State, key: nat): (r: State) {
    State(0, s.mapInfo, s.mapAddr, [], 0, map[], 0, map[], 1, key)
  }

  /* ---- The operations ---- */

  // Where the program asserts a condition, these functions leave the state alone when it fails;
  // the methods of module AddrManObject prove that it never does.

  predicate Known(s: State, ip: Ip) {
    ip in s.mapAddr && var id := s.mapAddr[ip]; id in s.mapInfo
  }

  predicate Matches(s: State, service: Service) {
    Known(s, service.ip) && s.mapInfo[s.mapAddr[service.ip]].service == service
  }

  function NewInfo(addr: Address, source: Ip, randomPos: int): (r: Info) {
    Info(addr.service, addr.nServices, addr.nTime, source, 0, 0, 0, 0, 0, false, randomPos)
  }

  function Create(s: State, addr: Address, source: Ip): (r: State) {
    s.(nIdCount := s.nIdCount + 1,
       mapInfo := s.mapInfo[s.nIdCount := NewInfo(addr, source, |s.vRandom|)],
       mapAddr := s.mapAddr[addr.service.ip := s.nIdCount],
       vRandom := s.vRandom + [s.nIdCount])
  }

  // The entries after the ids at positions i and j of the random order trade places.
  function SwappedInfos(vRandom: seq<int>, infos: Infos, i: int, j: int): (r: Infos)
    requires 0 <= i < |vRandom| && 0 <= j < |vRandom|
  {
    var id1, id2 := vRandom[i], vRandom[j];
    if id1 in infos && id2 in infos then
      infos[id1 := infos[id1].(nRandomPos := j)][id2 := infos[id2].(nRandomPos := i)]
    else infos
  }

  function SwapRandom(s: State, i: int, j: int): (r: State) {
    if i == j || !(0 <= i < |s.vRandom| && 0 <= j < |s.vRandom|) then s
    else
      s.(mapInfo := SwappedInfos(s.vRandom, s.mapInfo, i, j),
         vRandom := SwappedRandom(s.vRandom, i, j))
  }

  function SwappedRandom(vRandom: seq<int>, i: int, j: int): (r: seq<int>)
    requires 0 <= i < |vRandom| && 0 <= j < |vRandom|
  {
    vRandom[i := vRandom[j]][j := vRandom[i]]
  }

  // Drops an entry, given the random order and the entries with it moved to the end.
  function Dropped(s: State, id: int, infos: Infos, vRandom: seq<int>): (r: State)
    requires id in s.mapInfo && |vRandom| > 0
  {
    s.(mapInfo := infos - {id}, vRandom := vRandom[..|vRandom| - 1],
       mapAddr := s.mapAddr - {s.mapInfo[id].service.ip}, nNew := s.nNew - 1)
  }

  function Delete(s: State, id: int): (r: State) {
    if id !in s.mapInfo || !(0 <= s.mapInfo[id].nRandomPos < |s.vRandom|) then s
    else
      var pos, last := s.mapInfo[id].nRandomPos, |s.vRandom| - 1;
      if pos == last then Dropped(s, id, s.mapInfo, s.vRandom)
      else Dropped(s, id, SwappedInfos(s.vRandom, s.mapInfo, pos, last), SwappedRandom(s.vRandom, pos, last))
  }

  function SetInfo(s: State, id: int, info: Info): (r: State) {
    s.(mapInfo := s.mapInfo[id := info])
  }

  predicate Refers(s: State, slot: Slot) {
    slot in s.vvNew && var id := s.vvNew[slot]; id in s.mapInfo
  }

  function Counted(infos: Infos, id: int, d: int): (r: Infos)
    requires id in infos
  {
    infos[id := infos[id].(nRefCount := infos[id].nRefCount + d)]
  }

  // Drops the reference in a slot of the new table, without deleting the entry.
  function Unref(s: State, slot: Slot): (r: State) {
    if !Refers(s, slot) then s
    else s.(mapInfo := Counted(s.mapInfo, s.vvNew[slot], -1), vvNew := s.vvNew - {slot})
  }

  function AddRef(s: State, slot: Slot, id: int): (r: State) {
    if id !in s.mapInfo then s
    else s.(mapInfo := Counted(s.mapInfo, id, 1), vvNew := s.vvNew[slot := id])
  }

  function ClearNew(s: State, slot: Slot): (r: State) {
    if !Refers(s, slot) then s
    else
      var id, t := s.vvNew[slot], Unref(s, slot);
      if t.mapInfo[id].nRefCount == 0 then Delete(t, id) else t
  }

  // One round of MakeTried's sweep: drops the entry's reference from one bucket, if it has one there.
  function SweepOne(env: Env, s: State, id: int, bucket: int): (r: State) {
    if id !in s.mapInfo then s
    else
      var slot := env.NewSlotIn(s.nKey, bucket, s.mapInfo[id].service);
      if slot in s.vvNew && s.vvNew[slot] == id then Unref(s, slot) else s
  }

  // The first n rounds.
  function Sweep(env: Env, s: State, id: int, n: nat): (r: State) {
    if n == 0 then s else SweepOne(env, Sweep(env, s, id, n - 1), id, n - 1)
  }

  // Takes the entry in a slot out of the tried table.
  function Demoted(s: State, slot: Slot): (r: State)
    requires slot in s.vvTried && s.vvTried[slot] in s.mapInfo
  {
    var id := s.vvTried[slot];
    s.(mapInfo := s.mapInfo[id := s.mapInfo[id].(fInTried := false)],
       vvTried := s.vvTried - {slot}, nTried := s.nTried - 1)
  }

  // Moves the tried entry in a slot back to the new table, over whatever is there.
  function Evict(env: Env, s: State, slot: Slot): (r: State) {
    if slot !in s.vvTried || s.vvTried[slot] !in s.mapInfo then s
    else
      var id := s.vvTried[slot];
      var newSlot := env.NewSlot(s.nKey, s.mapInfo[id].service, s.mapInfo[id].source);
      var cleared := ClearNew(Demoted(s, slot), newSlot);
      AddRef(cleared, newSlot, id).(nNew := cleared.nNew + 1)
  }

  function Promote(s: State, slot: Slot, id: int): (r: State) {
    if id !in s.mapInfo then s
    else
      s.(mapInfo := s.mapInfo[id := s.mapInfo[id].(fInTried := true)],
         vvTried := s.vvTried[slot := id], nTried := s.nTried + 1)
  }

  // The first half of MakeTried: the entry leaves the new table, and its tried slot is made free.
  function MadeRoom(env: Env, s: State, id: int, slot: Slot): (r: State) {
    var swept := Sweep(env, s, id, NEW_BUCKET_COUNT);
    Evict(env, swept.(nNew := swept.nNew - 1), slot)
  }

  function MakeTried(env: Env, s: State, id: int): (r: State) {
    if id !in s.mapInfo then s
    else
      var slot := env.TriedSlot(s.nKey, s.mapInfo[id].service);
      Promote(MadeRoom(env, s, id, slot), slot, id)
  }

  function Good(env: Env, s: State, service: Service, nTime: int): (r: State) {
    var t := s.(nLastGood := nTime);
    if !Matches(t, service) then t
    else
      var id := t.mapAddr[service.ip];
      var info := t.mapInfo[id].(nLastSuccess := nTime, nLastTry := nTime, nAttempts := 0);
      var u := SetInfo(t, id, info);
      if info.fInTried then u else MakeTried(env, u, id)
  }

  predicate IsTerrible(info: Info, now: int) {
    if info.nLastTry != 0 && info.nLastTry >= now - 60 then false
    else
      || info.nTime > now + 10 * 60
      || info.nTime == 0 || now - info.nTime > HORIZON_DAYS * 24 * 60 * 60
      || (info.nLastSuccess == 0 && info.nAttempts >= RETRIES)
      || (now - info.nLastSuccess > MIN_FAIL_DAYS * 24 * 60 * 60 && info.nAttempts >= MAX_FAILURES)
  }

  // What Add_ learns about an address it already knows.
  function Refreshed(info: Info, addr: Address, penalty: int, now: int): (r: Info) {
    var interval := if now - addr.nTime < 24 * 60 * 60 then 60 * 60 else 24 * 60 * 60;
    var stale := addr.nTime != 0 && (info.nTime == 0 || info.nTime < addr.nTime - interval - penalty);
    var penalized := if addr.nTime - penalty > 0 then addr.nTime - penalty else 0;
    info.(nTime := if stale then penalized else info.nTime, nServices := info.nServices + addr.nServices)
  }

  // Whether Add_ goes on to give a known address one more reference; lucky is the outcome of the
  // random test, which an entry without references always passes.
  predicate WantsRef(info: Info, addr: Address, lucky: bool) {
    && !(addr.nTime == 0 || (info.nTime != 0 && addr.nTime <= info.nTime))
    && !info.fInTried
    && info.nRefCount != NEW_BUCKETS_PER_ADDRESS
    && (lucky || info.nRefCount <= 0)
  }

  predicate Overwrites(existing: Info, info: Info, now: int) {
    IsTerrible(existing, now) || (existing.nRefCount > 1 && info.nRefCount == 0)
  }

  // Tries to put an entry into the bucket its source selects; a new one that loses is deleted.
  function Place(env: Env, s: State, id: int, source: Ip, now: int): (r: State) {
    if id !in s.mapInfo then s
    else
      var info := s.mapInfo[id];
      var slot := env.NewSlot(s.nKey, info.service, source);
      if slot in s.vvNew && s.vvNew[slot] == id then s
      else if slot !in s.vvNew || (Refers(s, slot) && Overwrites(s.mapInfo[s.vvNew[slot]], info, now)) then
        AddRef(ClearNew(s, slot), slot, id)
      else if info.nRefCount == 0 then Delete(s, id)
      else s
  }

  function Aged(addr: Address, penalty: int): (r: Address) {
    addr.(nTime := if addr.nTime - penalty > 0 then addr.nTime - penalty else 0)
  }

  function Created(s: State, addr: Address, source: Ip, penalty: int): (r: State) {
    Create(s, Aged(addr, penalty), source).(nNew := s.nNew + 1)
  }

  function Add(env: Env, s: State, addr: Address, source: Ip, penalty: int, now: int, lucky: bool): (r: State) {
    if !env.routable(addr.service.ip) then s
    else if Known(s, addr.service.ip) then
      var id := s.mapAddr[addr.service.ip];
      var info := Refreshed(s.mapInfo[id], addr, penalty, now);
      var t := SetInfo(s, id, info);
      if WantsRef(info, addr, lucky) then Place(env, t, id, source, now) else t
    else
      Place(env, Created(s, addr, source, penalty), s.nIdCount, source, now)
  }

  function Attempt(s: State, service: Service, nTime: int): (r: State) {
    if !Matches(s, service) then s
    else
      var id := s.mapAddr[service.ip];
      var info := s.mapInfo[id].(nLastTry := nTime);
      SetInfo(s, id, if info.nLastCountAttempt < s.nLastGood
                     then info.(nLastCountAttempt := nTime, nAttempts := info.nAttempts + 1)
                     else info)
  }

  function Connected(s: State, service: Service, nTime: int): (r: State) {
    if !Matches(s, service) then s
    else
      var id := s.mapAddr[service.ip];
      var info := s.mapInfo[id];
      if nTime - info.nTime > 20 * 60 then SetInfo(s, id, info.(nTime := nTime)) else s
  }

  function SetServices(s: State, service: Service, nServices: Services): (r: State) {
    if !Matches(s, service) then s
    else
      var id := s.mapAddr[service.ip];
      SetInfo(s, id, s.mapInfo[id].(nServices := nServices))
  }
}
