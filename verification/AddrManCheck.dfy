/** The address manager's own consistency check, and how it relates to the invariant. */
module AddrManCheck {
  import opened AddrMan
  import opened Helpers

  // The tables have the dimensions of the program's arrays.
  ghost predicate InBounds(s: State) {
    && (forall slot :: slot in s.vvTried ==> 0 <= slot.bucket < TRIED_BUCKET_COUNT && 0 <= slot.pos < BUCKET_SIZE)
    && (forall slot :: slot in s.vvNew ==> 0 <= slot.bucket < NEW_BUCKET_COUNT && 0 <= slot.pos < BUCKET_SIZE)
  }

  // mapAddr[ip], which yields 0 for an IP that is missing.
  function Filed(mapAddr: map<Ip, int>, ip: Ip): (r: int) {
    if ip in mapAddr then mapAddr[ip] else 0
  }

  ghost predicate EntryChecked(s: State, id: int)
    requires id in s.mapInfo
  {
    var info := s.mapInfo[id];
    && (if info.fInTried then info.nLastSuccess != 0 && info.nRefCount == 0
        else 1 <= info.nRefCount <= NEW_BUCKETS_PER_ADDRESS)
    && Filed(s.mapAddr, info.service.ip) == id
    && 0 <= info.nRandomPos < |s.vRandom| && s.vRandom[info.nRandomPos] == id
    && info.nLastTry >= 0 && info.nLastSuccess >= 0
  }

  ghost predicate TriedSlotChecked(env: Env, s: State, slot: Slot)
    requires slot in s.vvTried
  {
    var id := s.vvTried[slot];
    id in s.mapInfo && s.mapInfo[id].fInTried && slot == env.TriedSlot(s.nKey, s.mapInfo[id].service)
  }

  ghost predicate NewSlotChecked(env: Env, s: State, slot: Slot)
    requires slot in s.vvNew
  {
    var id := s.vvNew[slot];
    id in s.mapInfo && !s.mapInfo[id].fInTried && slot == env.NewSlotIn(s.nKey, slot.bucket, s.mapInfo[id].service)
  }

  ghost predicate OwnsTriedSlot(env: Env, s: State, id: int)
    requires id in s.mapInfo
  {
    var slot := env.TriedSlot(s.nKey, s.mapInfo[id].service);
    slot in s.vvTried && s.vvTried[slot] == id
  }

  ghost predicate NewChecked(env: Env, s: State) {
    && (forall slot :: slot in s.vvNew ==> NewSlotChecked(env, s, slot))
    && (forall id :: id in s.mapInfo && !s.mapInfo[id].fInTried ==> s.mapInfo[id].nRefCount == |Refs(s.vvNew, id)|)
  }

  // What is checked slot by slot, and the key.
  ghost predicate TablesChecked(env: Env, s: State) {
    && (forall slot :: slot in s.vvTried ==> TriedSlotChecked(env, s, slot))
    && (forall id :: id in s.mapInfo && s.mapInfo[id].fInTried ==> OwnsTriedSlot(env, s, id))
    && NewChecked(env, s) && s.nKey != 0
  }

  ghost predicate EntriesChecked(s: State) {
    forall id :: id in s.mapInfo ==> EntryChecked(s, id)
  }

  // What the check checks.
  ghost predicate Checked(env: Env, s: State) {
    && |s.vRandom| == s.nTried + s.nNew && EntriesChecked(s)
    && |Trieds(s.mapInfo)| == s.nTried && |News(s.mapInfo)| == s.nNew
    && TablesChecked(env, s)
  }

  // What an error code accuses an entry of.
  ghost predicate EntryFault(env: Env, s: State, id: int, err: int)
    requires id in s.mapInfo
  {
    var info := s.mapInfo[id];
    match err
    case -1 => info.fInTried && info.nLastSuccess == 0
    case -2 => info.fInTried && info.nRefCount != 0
    case -3 => !info.fInTried && !(0 <= info.nRefCount <= NEW_BUCKETS_PER_ADDRESS)
    case -4 => !info.fInTried && info.nRefCount == 0
    case -5 => Filed(s.mapAddr, info.service.ip) != id
    case -6 => info.nLastTry < 0
    case -8 => info.nLastSuccess < 0
    case -13 => info.fInTried && !OwnsTriedSlot(env, s, id)
    case -14 => !(0 <= info.nRandomPos < |s.vRandom| && s.vRandom[info.nRandomPos] == id)
    case -15 => !info.fInTried && info.nRefCount > |Refs(s.vvNew, id)|
    case _ => false
  }

  // A slot of the tried table holds an id that is not there to be placed, or is in the wrong bucket or
  // position for it.
  ghost predicate TriedFault(env: Env, s: State, slot: Slot, err: int)
    requires slot in s.vvTried
  {
    var id := s.vvTried[slot];
    match err
    case -11 => !TriedSlotChecked(env, s, slot)
    case -17 => id in s.mapInfo && slot.bucket != env.triedBucket(s.nKey, s.mapInfo[id].service)
    case -18 => id in s.mapInfo && slot.pos != env.position(s.nKey, false, slot.bucket, s.mapInfo[id].service)
    case _ => false
  }

  // A slot of the new table holds an id with no references left to be found, or in the wrong position.
  ghost predicate NewFault(env: Env, s: State, slot: Slot, err: int)
    requires slot in s.vvNew
  {
    var id := s.vvNew[slot];
    match err
    case -12 => id in s.mapInfo && !s.mapInfo[id].fInTried ==> |Refs(s.vvNew, id)| > s.mapInfo[id].nRefCount
    case -19 => id in s.mapInfo && slot.pos != env.position(s.nKey, true, slot.bucket, s.mapInfo[id].service)
    case _ => false
  }

  // What each error code means.
  ghost predicate Accuses(env: Env, s: State, err: int) {
    match err
    case 0 => false
    case -7 => |s.vRandom| != s.nTried + s.nNew
    case -9 => |Trieds(s.mapInfo)| != s.nTried
    case -10 => |News(s.mapInfo)| != s.nNew
    case -16 => s.nKey == 0
    case _ =>
      || (exists id :: id in s.mapInfo && EntryFault(env, s, id, err))
      || (exists slot :: slot in s.vvTried && TriedFault(env, s, slot, err))
      || (exists slot :: slot in s.vvNew && NewFault(env, s, slot, err))
  }

  // The address map after the addresses of some entries were looked up: what was missing is there, with 0.
  ghost function LookedUp(s: State, ids: set<int>): (r: map<Ip, int>) {
    map ip | ip in s.mapAddr.Keys + (set id | id in ids && id in s.mapInfo :: s.mapInfo[id].service.ip) ::
      Filed(s.mapAddr, ip)
  }

  // The slots the nested loops have passed when they are at bucket n, position i.
  ghost predicate Before(slot: Slot, n: int, i: int) {
    slot.bucket < n || (slot.bucket == n && slot.pos < i)
  }

  /* ---- The loops of Check_ ---- */

  lemma LookUpOne(s: State, ids: set<int>, id: int, mapAddr: map<Ip, int>)
    requires id in s.mapInfo && mapAddr == LookedUp(s, ids)
    ensures var ip := s.mapInfo[id].service.ip;
      && Filed(mapAddr, ip) == Filed(s.mapAddr, ip)
      && mapAddr[ip := Filed(mapAddr, ip)] == LookedUp(s, ids + {id})
  {}

  // The tried ones and the new ones, with their reference counts, among some entries.
  ghost predicate Sorted(s: State, ids: set<int>, setTried: set<int>, mapNew: map<int, int>) {
    && (forall id :: id in setTried <==> id in ids && id in Trieds(s.mapInfo))
    && (forall id :: id in mapNew <==> id in ids && id in News(s.mapInfo))
    && (forall id :: id in mapNew ==> mapNew[id] == s.mapInfo[id].nRefCount)
  }

  lemma SortOne(s: State, ids: set<int>, setTried: set<int>, mapNew: map<int, int>, n: int)
    requires Sorted(s, ids, setTried, mapNew) && n in s.mapInfo
    ensures s.mapInfo[n].fInTried ==> Sorted(s, ids + {n}, setTried + {n}, mapNew)
    ensures !s.mapInfo[n].fInTried ==> Sorted(s, ids + {n}, setTried, mapNew[n := s.mapInfo[n].nRefCount])
  {}

  // The entries are visited in any order. Looking up an address that is missing inserts it.
  method CheckEntries(env: Env, s: State)
    returns (err: int, setTried: set<int>, mapNew: map<int, int>, mapAddr: map<Ip, int>, ghost looked: set<int>)
    ensures err == 0 <==> EntriesChecked(s)
    ensures err != 0 ==> err != -7 && err != -9 && err != -10 && err != -16
    ensures err != 0 ==> exists id :: id in s.mapInfo && EntryFault(env, s, id, err)
    ensures mapAddr == LookedUp(s, looked) && looked <= s.mapInfo.Keys && (err == 0 ==> looked == s.mapInfo.Keys)
    ensures err == 0 ==> Sorted(s, s.mapInfo.Keys, setTried, mapNew)
  {
    setTried, mapNew, mapAddr, looked := {}, map[], s.mapAddr, {};
    var todo := s.mapInfo.Keys;
    while todo != {}
      invariant todo <= s.mapInfo.Keys && looked == s.mapInfo.Keys - todo && mapAddr == LookedUp(s, looked)
      invariant forall id :: id in s.mapInfo && id !in todo ==> EntryChecked(s, id)
      invariant Sorted(s, s.mapInfo.Keys - todo, setTried, mapNew)
    {
      ghost var member := Any(todo);
      var n :| n in todo;
      var info := s.mapInfo[n];
      LookUpOne(s, looked, n, mapAddr);
      SortOne(s, looked, setTried, mapNew, n);
      assert s.mapInfo.Keys - (todo - {n}) == looked + {n};
      var found;
      err, found := CheckEntry(env, s, mapAddr, n);
      if found {
        mapAddr := mapAddr[info.service.ip := Filed(mapAddr, info.service.ip)];
        looked := looked + {n};
      }
      if err != 0 {
        return;
      }
      if info.fInTried {
        setTried := setTried + {n};
      } else {
        mapNew := mapNew[n := info.nRefCount];
      }
      todo := todo - {n};
    }
    assert s.mapInfo.Keys - {} == s.mapInfo.Keys;
    err := 0;
  }

  // Whether an entry is as it should be, and whether its address was looked up.
  method CheckEntry(env: Env, s: State, mapAddr: map<Ip, int>, n: int) returns (err: int, found: bool)
    requires n in s.mapInfo
    requires Filed(mapAddr, s.mapInfo[n].service.ip) == Filed(s.mapAddr, s.mapInfo[n].service.ip)
    ensures err == 0 <==> EntryChecked(s, n)
    ensures err != 0 ==> err in {-1, -2, -3, -4, -5, -14, -6, -8} && EntryFault(env, s, n, err)
    ensures found <==> err !in {-1, -2, -3, -4}
  {
    var info := s.mapInfo[n];
    if info.fInTried {
      if info.nLastSuccess == 0 {
        return -1, false;
      }
      if info.nRefCount != 0 {
        return -2, false;
      }
    } else {
      if info.nRefCount < 0 || info.nRefCount > NEW_BUCKETS_PER_ADDRESS {
        return -3, false;
      }
      if info.nRefCount == 0 {
        return -4, false;
      }
    }
    if Filed(mapAddr, info.service.ip) != n {
      return -5, true;
    }
    if info.nRandomPos < 0 || info.nRandomPos >= |s.vRandom| || s.vRandom[info.nRandomPos] != n {
      return -14, true;
    }
    if info.nLastTry < 0 {
      return -6, true;
    }
    if info.nLastSuccess < 0 {
      return -8, true;
    }
    return 0, true;
  }

  // The tried entries that do not own a slot among those passed.
  ghost predicate Unplaced(env: Env, s: State, id: int, n: int, i: int) {
    id in Trieds(s.mapInfo)
    && !(OwnsTriedSlot(env, s, id) && Before(env.TriedSlot(s.nKey, s.mapInfo[id].service), n, i))
  }

  method CheckTriedSlot(env: Env, s: State, setTried: set<int>, n: int, i: int) returns (err: int, left: set<int>)
    requires InBounds(s) && 0 <= n && 0 <= i < BUCKET_SIZE
    requires forall id :: id in setTried <==> Unplaced(env, s, id, n, i)
    requires forall slot :: slot in s.vvTried && Before(slot, n, i) ==> TriedSlotChecked(env, s, slot)
    ensures err == 0 ==> forall id :: id in left <==> Unplaced(env, s, id, n, i + 1)
    ensures err == 0 <==> forall slot :: slot in s.vvTried && Before(slot, n, i + 1) ==> TriedSlotChecked(env, s, slot)
    ensures err != 0 ==> err in {-11, -17, -18} && Slot(n, i) in s.vvTried && TriedFault(env, s, Slot(n, i), err)
  {
    left := setTried;
    var slot := Slot(n, i);
    if slot in s.vvTried {
      var id := s.vvTried[slot];
      if id !in setTried {
        assert Before(slot, n, i + 1) && !TriedSlotChecked(env, s, slot);
        return -11, left;
      }
      if env.triedBucket(s.nKey, s.mapInfo[id].service) != n {
        assert Before(slot, n, i + 1) && !TriedSlotChecked(env, s, slot);
        return -17, left;
      }
      if env.position(s.nKey, false, n, s.mapInfo[id].service) != i {
        assert Before(slot, n, i + 1) && !TriedSlotChecked(env, s, slot);
        return -18, left;
      }
      left := setTried - {id};
    }
    forall id
      ensures id in left <==> Unplaced(env, s, id, n, i + 1)
    {
      if id in s.mapInfo {
        var own := env.TriedSlot(s.nKey, s.mapInfo[id].service);
        assert Before(own, n, i + 1) <==> Before(own, n, i) || own == slot;
      }
    }
    return 0, left;
  }

  method CheckTried(env: Env, s: State, setTried: set<int>) returns (err: int, left: set<int>)
    requires InBounds(s) && setTried == Trieds(s.mapInfo)
    ensures err == 0 <==> forall slot :: slot in s.vvTried ==> TriedSlotChecked(env, s, slot)
    ensures err != 0 ==> err in {-11, -17, -18} && exists slot :: slot in s.vvTried && TriedFault(env, s, slot, err)
    ensures err == 0 && left != {} ==> exists id :: id in s.mapInfo && EntryFault(env, s, id, -13)
    ensures err == 0 ==>
      (left == {} <==> forall id :: id in s.mapInfo && s.mapInfo[id].fInTried ==> OwnsTriedSlot(env, s, id))
  {
    left, err := setTried, 0;
    var n := 0;
    while n < TRIED_BUCKET_COUNT
      invariant 0 <= n <= TRIED_BUCKET_COUNT
      invariant forall id :: id in left <==> Unplaced(env, s, id, n, 0)
      invariant forall slot :: slot in s.vvTried && Before(slot, n, 0) ==> TriedSlotChecked(env, s, slot)
    {
      var i := 0;
      while i < BUCKET_SIZE
        invariant 0 <= i <= BUCKET_SIZE
        invariant forall id :: id in left <==> Unplaced(env, s, id, n, i)
        invariant forall slot :: slot in s.vvTried && Before(slot, n, i) ==> TriedSlotChecked(env, s, slot)
      {
        err, left := CheckTriedSlot(env, s, left, n, i);
        if err != 0 {
          return;
        }
        i := i + 1;
      }
      assert forall slot :: slot in s.vvTried ==> (Before(slot, n, BUCKET_SIZE) <==> Before(slot, n + 1, 0));
      n := n + 1;
    }
    assert forall slot :: slot in s.vvTried ==> Before(slot, TRIED_BUCKET_COUNT, 0);
    err := 0;
    if left == {} {
      forall id | id in s.mapInfo && s.mapInfo[id].fInTried
        ensures OwnsTriedSlot(env, s, id)
      {
        assert id !in left;
      }
    } else {
      ghost var id := Any(left);
      assert Unplaced(env, s, id, TRIED_BUCKET_COUNT, 0);
      assert EntryFault(env, s, id, -13);
    }
  }

  // The references to id among the slots passed.
  ghost function RefsBefore(s: State, id: int, n: int, i: int): (r: set<Slot>) {
    set slot | slot in Refs(s.vvNew, id) && Before(slot, n, i)
  }

  // mapNew counts down the references still to be found.
  ghost predicate Counting(s: State, mapNew: map<int, int>, n: int, i: int) {
    && (forall id :: id in mapNew ==>
          id in News(s.mapInfo) && mapNew[id] > 0 && mapNew[id] == s.mapInfo[id].nRefCount - |RefsBefore(s, id, n, i)|)
    && (forall id :: id in News(s.mapInfo) && id !in mapNew ==> s.mapInfo[id].nRefCount == |RefsBefore(s, id, n, i)|)
  }

  lemma RefsBeforeStep(s: State, id: int, n: int, i: int)
    ensures var slot := Slot(n, i);
      |RefsBefore(s, id, n, i + 1)|
        == |RefsBefore(s, id, n, i)| + if slot in s.vvNew && s.vvNew[slot] == id then 1 else 0
  {
    var slot := Slot(n, i);
    assert RefsBefore(s, id, n, i + 1)
        == if slot in s.vvNew && s.vvNew[slot] == id then RefsBefore(s, id, n, i) + {slot} else RefsBefore(s, id, n, i);
  }

  lemma MoreRefs(s: State, id: int, n: int, i: int)
    ensures |RefsBefore(s, id, n, i)| <= |Refs(s.vvNew, id)|
  {
    CardMono(RefsBefore(s, id, n, i), Refs(s.vvNew, id));
  }

  // The new table as far as it has been passed; a slot too many for an entry is not excluded yet.
  ghost predicate NewPassed(env: Env, s: State, n: int, i: int) {
    forall slot :: slot in s.vvNew && Before(slot, n, i) ==> NewSlotChecked(env, s, slot)
  }

  method CheckNewSlot(env: Env, s: State, mapNew: map<int, int>, n: int, i: int) returns (err: int, left: map<int, int>)
    requires Counting(s, mapNew, n, i) && NewPassed(env, s, n, i)
    ensures err == 0 ==> Counting(s, left, n, i + 1) && NewPassed(env, s, n, i + 1)
    ensures err != 0 ==> !NewChecked(env, s)
    ensures err != 0 ==> err in {-12, -19} && Slot(n, i) in s.vvNew && NewFault(env, s, Slot(n, i), err)
  {
    left := mapNew;
    var slot := Slot(n, i);
    forall id
      ensures |RefsBefore(s, id, n, i + 1)|
        == |RefsBefore(s, id, n, i)| + if slot in s.vvNew && s.vvNew[slot] == id then 1 else 0
    {
      RefsBeforeStep(s, id, n, i);
    }
    if slot in s.vvNew {
      var id := s.vvNew[slot];
      if id !in mapNew {
        MoreRefs(s, id, n, i + 1);
        assert NewSlotChecked(env, s, slot) ==> id in News(s.mapInfo);
        return -12, left;
      }
      if env.position(s.nKey, true, n, s.mapInfo[id].service) != i {
        assert !NewSlotChecked(env, s, slot);
        return -19, left;
      }
      left := left[id := left[id] - 1];
      if left[id] == 0 {
        left := left - {id};
      }
    }
    return 0, left;
  }

  method CheckNewBucket(env: Env, s: State, mapNew: map<int, int>, n: int) returns (err: int, left: map<int, int>)
    requires InBounds(s) && Counting(s, mapNew, n, 0) && NewPassed(env, s, n, 0)
    ensures err == 0 ==> Counting(s, left, n + 1, 0) && NewPassed(env, s, n + 1, 0)
    ensures err != 0 ==> !NewChecked(env, s)
    ensures err != 0 ==> err in {-12, -19} && exists slot :: slot in s.vvNew && NewFault(env, s, slot, err)
  {
    left, err := mapNew, 0;
    var i := 0;
    while i < BUCKET_SIZE
      invariant 0 <= i <= BUCKET_SIZE
      invariant Counting(s, left, n, i) && NewPassed(env, s, n, i)
    {
      err, left := CheckNewSlot(env, s, left, n, i);
      if err != 0 {
        return;
      }
      i := i + 1;
    }
    NextBucket(env, s, left, n);
    err := 0;
  }

  lemma NextBucket(env: Env, s: State, left: map<int, int>, n: int)
    requires InBounds(s) && Counting(s, left, n, BUCKET_SIZE) && NewPassed(env, s, n, BUCKET_SIZE)
    ensures Counting(s, left, n + 1, 0) && NewPassed(env, s, n + 1, 0)
  {
    assert forall slot :: slot in s.vvNew ==> (Before(slot, n, BUCKET_SIZE) <==> Before(slot, n + 1, 0));
    assert forall id :: RefsBefore(s, id, n, BUCKET_SIZE) == RefsBefore(s, id, n + 1, 0);
  }

  method CheckNew(env: Env, s: State, mapNew: map<int, int>) returns (err: int, left: map<int, int>)
    requires InBounds(s)
    requires forall id :: (id in mapNew <==> id in News(s.mapInfo))
                       && (id in mapNew ==> mapNew[id] == s.mapInfo[id].nRefCount)
    requires forall id :: id in mapNew ==> mapNew[id] > 0
    ensures err == 0 && left == map[] <==> NewChecked(env, s)
    ensures err != 0 ==> err in {-12, -19} && exists slot :: slot in s.vvNew && NewFault(env, s, slot, err)
    ensures err == 0 && left != map[] ==> exists id :: id in s.mapInfo && EntryFault(env, s, id, -15)
  {
    left, err := mapNew, 0;
    assert forall id :: RefsBefore(s, id, 0, 0) == {};
    var n := 0;
    while n < NEW_BUCKET_COUNT
      invariant 0 <= n <= NEW_BUCKET_COUNT
      invariant Counting(s, left, n, 0) && NewPassed(env, s, n, 0)
    {
      err, left := CheckNewBucket(env, s, left, n);
      if err != 0 {
        return;
      }
      n := n + 1;
    }
    err := 0;
    AllPassed(env, s, left);
  }

  // After the last bucket nothing is left exactly when every entry has as many references as it says.
  lemma AllPassed(env: Env, s: State, left: map<int, int>)
    requires InBounds(s) && Counting(s, left, NEW_BUCKET_COUNT, 0) && NewPassed(env, s, NEW_BUCKET_COUNT, 0)
    ensures left == map[] <==> NewChecked(env, s)
    ensures left != map[] ==> exists id :: id in s.mapInfo && EntryFault(env, s, id, -15)
  {
    assert forall slot :: slot in s.vvNew ==> Before(slot, NEW_BUCKET_COUNT, 0);
    assert forall id :: RefsBefore(s, id, NEW_BUCKET_COUNT, 0) == Refs(s.vvNew, id);
    if left != map[] {
      var id := Any(left.Keys);
      assert EntryFault(env, s, id, -15);
    }
  }

  method CheckTables(env: Env, s: State, setTried: set<int>, mapNew: map<int, int>) returns (err: int)
    requires InBounds(s) && setTried == Trieds(s.mapInfo)
    requires forall id :: (id in mapNew <==> id in News(s.mapInfo))
                       && (id in mapNew ==> mapNew[id] == s.mapInfo[id].nRefCount)
    requires forall id :: id in mapNew ==> mapNew[id] > 0
    ensures err == 0 <==> TablesChecked(env, s)
    ensures err != 0 ==> Accuses(env, s, err)
  {
    var leftTried, leftNew;
    err, leftTried := CheckTried(env, s, setTried);
    if err != 0 {
      return;
    }
    err, leftNew := CheckNew(env, s, mapNew);
    if err != 0 {
      return;
    }
    if leftTried != {} {
      return -13;
    }
    if leftNew != map[] {
      return -15;
    }
    if s.nKey == 0 {
      return -16;
    }
    return 0;
  }

  // The two counters, and then the tables.
  method CheckCounted(env: Env, s: State, setTried: set<int>, mapNew: map<int, int>) returns (err: int)
    requires InBounds(s) && EntriesChecked(s) && Sorted(s, s.mapInfo.Keys, setTried, mapNew)
    ensures err == 0 <==> |Trieds(s.mapInfo)| == s.nTried && |News(s.mapInfo)| == s.nNew && TablesChecked(env, s)
    ensures err != 0 ==> Accuses(env, s, err)
  {
    assert setTried == Trieds(s.mapInfo) by {
      assert forall id :: id in setTried <==> id in Trieds(s.mapInfo);
    }
    if |setTried| != s.nTried {
      return -9;
    }
    assert mapNew.Keys == News(s.mapInfo) by {
      assert forall id :: id in mapNew.Keys <==> id in News(s.mapInfo);
    }
    if |mapNew| != s.nNew {
      return -10;
    }
    assert forall id :: id in mapNew ==> mapNew[id] > 0 by {
      assert forall id :: id in s.mapInfo ==> EntryChecked(s, id);
    }
    err := CheckTables(env, s, setTried, mapNew);
  }

  // Check_: 0 exactly when the state is as the checks say, and otherwise what is wrong. The address map
  // comes out with the addresses of the entries that were looked up.
  method Check_(env: Env, s: State) returns (err: int, mapAddr: map<Ip, int>, ghost looked: set<int>)
    requires InBounds(s)
    ensures err == 0 <==> Checked(env, s)
    ensures err != 0 ==> Accuses(env, s, err)
    ensures mapAddr == LookedUp(s, looked) && looked <= s.mapInfo.Keys && (err == 0 ==> looked == s.mapInfo.Keys)
  {
    mapAddr, looked := s.mapAddr, {};
    assert mapAddr == LookedUp(s, looked);
    if |s.vRandom| != s.nTried + s.nNew {
      return -7, mapAddr, looked;
    }
    var setTried, mapNew;
    err, setTried, mapNew, mapAddr, looked := CheckEntries(env, s);
    if err != 0 {
      return;
    }
    err := CheckCounted(env, s, setTried, mapNew);
  }

  /* ---- The check and the invariant ---- */

  // What the check does not look at: stray addresses, an address missing for id 0, and ids out of range.
  ghost predicate Unchecked(s: State) {
    && 0 <= s.nIdCount && (forall id :: id in s.mapInfo ==> 0 <= id < s.nIdCount)
    && (forall ip :: ip in s.mapAddr ==> var id := s.mapAddr[ip]; id in s.mapInfo && s.mapInfo[id].service.ip == ip)
    && (forall id :: id in s.mapInfo ==> s.mapInfo[id].service.ip in s.mapAddr)
  }

  ghost function Positions(infos: Infos): (r: set<int>) {
    set id | id in infos :: infos[id].nRandomPos
  }

  // Entries with different positions are as many as their positions.
  lemma {:induction false} PositionsCard(infos: Infos)
    requires forall id, other :: id in infos && other in infos && id != other ==>
      infos[id].nRandomPos != infos[other].nRandomPos
    ensures |Positions(infos)| == |infos.Keys|
    decreases |infos|
  {
    if infos.Keys != {} {
      var id := Any(infos.Keys);
      var rest := infos - {id};
      PositionsCard(rest);
      assert Positions(infos) == Positions(rest) + {infos[id].nRandomPos} by {
        forall pos | pos in Positions(infos)
          ensures pos in Positions(rest) + {infos[id].nRandomPos}
        {
          var other :| other in infos && infos[other].nRandomPos == pos;
          assert other == id || other in rest;
        }
      }
      assert infos[id].nRandomPos !in Positions(rest);
      assert rest.Keys == infos.Keys - {id};
    }
  }

  lemma NewsAndTrieds(infos: Infos)
    ensures |News(infos)| + |Trieds(infos)| == |infos.Keys|
  {
    assert News(infos) + Trieds(infos) == infos.Keys;
    assert News(infos) * Trieds(infos) == {};
  }

  // An entry per position and a position per entry: the check counts, the invariant points back.
  lemma RandomCounted(vRandom: seq<int>, infos: Infos)
    requires forall id :: id in infos ==>
      0 <= infos[id].nRandomPos < |vRandom| && vRandom[infos[id].nRandomPos] == id
    ensures RandomOk(vRandom, infos) <==> |vRandom| == |infos.Keys|
  {
    PositionsCard(infos);
    assert Positions(infos) <= Range(|vRandom|);
    if |vRandom| == |infos.Keys| {
      SameCard(Positions(infos), Range(|vRandom|));
      forall i | 0 <= i < |vRandom|
        ensures var id := vRandom[i]; id in infos && infos[id].nRandomPos == i
      {
        assert i in Range(|vRandom|) && i in Positions(infos);
      }
    }
    if RandomOk(vRandom, infos) {
      forall i | i in Range(|vRandom|)
        ensures i in Positions(infos)
      {
        var id := vRandom[i];
        assert id in infos && infos[id].nRandomPos == i;
      }
      assert Positions(infos) == Range(|vRandom|);
    }
  }

  lemma InvEntries(env: Env, s: State)
    requires Inv(env, s) && TimesOk(s.mapInfo)
    ensures forall id :: id in s.mapInfo ==> EntryChecked(s, id)
    ensures Unchecked(s)
  {
    forall id | id in s.mapInfo
      ensures EntryChecked(s, id)
    {
      if s.mapInfo[id].fInTried {
        assert Refs(s.vvNew, id) == {};
      }
    }
  }

  lemma InvSlots(env: Env, s: State)
    requires Inv(env, s)
    ensures forall slot :: slot in s.vvTried ==> TriedSlotChecked(env, s, slot)
    ensures forall id :: id in s.mapInfo && s.mapInfo[id].fInTried ==> OwnsTriedSlot(env, s, id)
    ensures forall slot :: slot in s.vvNew ==> NewSlotChecked(env, s, slot)
  {
  }

  lemma InvIsChecked(env: Env, s: State)
    requires Inv(env, s) && TimesOk(s.mapInfo)
    ensures Checked(env, s) && Unchecked(s)
  {
    RandomCounted(s.vRandom, s.mapInfo);
    NewsAndTrieds(s.mapInfo);
    InvEntries(env, s);
    InvSlots(env, s);
  }

  lemma CheckedIsInv(env: Env, s: State)
    requires Checked(env, s) && Unchecked(s) && InBounds(s)
    ensures Inv(env, s) && TimesOk(s.mapInfo)
  {
    NewsAndTrieds(s.mapInfo);
    forall id | id in s.mapInfo
      ensures 0 <= s.mapInfo[id].nRandomPos < |s.vRandom| && s.vRandom[s.mapInfo[id].nRandomPos] == id
    {
      assert EntryChecked(s, id);
    }
    RandomCounted(s.vRandom, s.mapInfo);
    CheckedAddr(s);
    CheckedTables(env, s);
  }

  lemma CheckedAddr(s: State)
    requires (forall id :: id in s.mapInfo ==> EntryChecked(s, id)) && Unchecked(s)
    ensures AddrOk(s.mapAddr, s.mapInfo) && InfoOk(s.mapInfo, s.nIdCount) && RefCountsOk(s.mapInfo, {})
    ensures TimesOk(s.mapInfo)
  {
    forall id | id in s.mapInfo
      ensures s.mapAddr[s.mapInfo[id].service.ip] == id
    {
      assert EntryChecked(s, id);
    }
    forall id | id in s.mapInfo
      ensures s.mapInfo[id].nLastTry >= 0 && s.mapInfo[id].nLastSuccess >= 0
      ensures s.mapInfo[id].fInTried ==> s.mapInfo[id].nLastSuccess != 0
    {
      assert EntryChecked(s, id);
    }
  }

  lemma CheckedTables(env: Env, s: State)
    requires Checked(env, s) && InBounds(s)
    ensures TriedOk(env, s.nKey, s.vvTried, s.mapInfo)
    ensures NewOk(env, s.nKey, s.vvNew, s.mapInfo) && RefsOk(s.vvNew, s.mapInfo)
  {
    forall slot | slot in s.vvTried
      ensures var id := s.vvTried[slot];
        id in s.mapInfo && s.mapInfo[id].fInTried && slot == env.TriedSlot(s.nKey, s.mapInfo[id].service)
    {
      assert TriedSlotChecked(env, s, slot);
    }
    forall slot | slot in s.vvNew
      ensures var id := s.vvNew[slot];
        id in s.mapInfo && !s.mapInfo[id].fInTried && slot == env.NewSlotIn(s.nKey, slot.bucket, s.mapInfo[id].service)
    {
      assert NewSlotChecked(env, s, slot);
    }
    forall id | id in s.mapInfo
      ensures s.mapInfo[id].nRefCount == |Refs(s.vvNew, id)|
    {
      assert EntryChecked(s, id);
      if s.mapInfo[id].fInTried {
        assert Refs(s.vvNew, id) == {};
      }
    }
  }

  // The invariant, with times that make sense, is the program's own check and three facts it does not
  // look at.
  lemma CheckMeaning(env: Env, s: State)
    requires InBounds(s)
    ensures Inv(env, s) && TimesOk(s.mapInfo) <==> Checked(env, s) && Unchecked(s)
  {
    if Inv(env, s) && TimesOk(s.mapInfo) {
      InvIsChecked(env, s);
    }
    if Checked(env, s) && Unchecked(s) {
      CheckedIsInv(env, s);
    }
  }

  // A check that passes puts the one address back that it does not miss.
  lemma CheckMends(env: Env, s: State)
    requires InBounds(s) && Checked(env, s)
    ensures var t := s.(mapAddr := LookedUp(s, s.mapInfo.Keys));
      && Checked(env, t) && (forall id :: id in t.mapInfo ==> t.mapInfo[id].service.ip in t.mapAddr)
      && (forall ip :: ip in t.mapAddr && ip !in s.mapAddr ==> 0 in s.mapInfo && ip == s.mapInfo[0].service.ip)
  {
    var t := s.(mapAddr := LookedUp(s, s.mapInfo.Keys));
    forall id | id in s.mapInfo
      ensures EntryChecked(t, id) && t.mapInfo[id].service.ip in t.mapAddr
    {
      assert EntryChecked(s, id);
    }
    forall ip | ip in t.mapAddr && ip !in s.mapAddr
      ensures 0 in s.mapInfo && ip == s.mapInfo[0].service.ip
    {
      var id :| id in s.mapInfo && s.mapInfo[id].service.ip == ip;
      assert EntryChecked(s, id);
    }
  }
}
