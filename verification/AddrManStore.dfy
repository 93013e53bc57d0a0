/** The address manager's saved form: entries by rank, and for each bucket the ranks of its entries. */
module AddrManStore {
  // New entries come before tried ones. Only what cannot be worked out again is saved.

  import opened AddrMan
  import opened Bits

  datatype Saved = Saved(
    nVersion: nat, nKey: nat, nNew: int, nTried: int, nUBuckets: nat,
    news: seq<Info>, trieds: seq<Info>, buckets: seq<seq<int>>)

  const BUCKETS_MARK := 0x4000_0000

  // An entry as it comes back from disk: without what is kept in memory only.
  function OnDisk(info: Info): (r: Info) {
    info.(nLastTry := 0, nLastCountAttempt := 0, nRefCount := 0, fInTried := false, nRandomPos := -1)
  }

  /* ---- Saving ---- */

  // The ids below n of entries with references, and of tried entries, in the order of mapInfo.
  function NewIds(infos: Infos, n: nat): (r: seq<int>) {
    if n == 0 then [] else NewIds(infos, n - 1) + if n - 1 in infos && infos[n - 1].nRefCount != 0 then [n - 1] else []
  }

  function TriedIds(infos: Infos, n: nat): (r: seq<int>) {
    if n == 0 then [] else TriedIds(infos, n - 1) + if n - 1 in infos && infos[n - 1].fInTried then [n - 1] else []
  }

  lemma IdsStep(infos: Infos, n: nat)
    ensures NewIds(infos, n + 1) ==
            if n in infos && infos[n].nRefCount != 0 then NewIds(infos, n) + [n] else NewIds(infos, n)
    ensures TriedIds(infos, n + 1) ==
            if n in infos && infos[n].fInTried then TriedIds(infos, n) + [n] else TriedIds(infos, n)
  {
    assert NewIds(infos, n) + [] == NewIds(infos, n);
    assert TriedIds(infos, n) + [] == TriedIds(infos, n);
  }

  // What the program calls mapUnkIds.
  function Rank(infos: Infos, id: int): (r: nat)
    requires id >= 0
  {
    |NewIds(infos, id)|
  }

  function DiskInfos(infos: Infos, ids: seq<int>): (r: seq<Info>)
    requires forall i :: 0 <= i < |ids| ==> ids[i] in infos
  {
    if ids == [] then [] else DiskInfos(infos, ids[..|ids| - 1]) + [OnDisk(infos[ids[|ids| - 1]])]
  }

  // The ranks in the first i slots of a bucket.
  function Entries(infos: Infos, vvNew: Table, bucket: int, i: nat): (r: seq<int>)
    requires forall slot :: slot in vvNew ==> vvNew[slot] >= 0
  {
    if i == 0 then []
    else Entries(infos, vvNew, bucket, i - 1) +
         if Slot(bucket, i - 1) in vvNew then [Rank(infos, vvNew[Slot(bucket, i - 1)])] else []
  }

  lemma EntriesStep(infos: Infos, vvNew: Table, bucket: int, i: nat)
    requires forall slot :: slot in vvNew ==> vvNew[slot] >= 0
    ensures Entries(infos, vvNew, bucket, i + 1) ==
            if Slot(bucket, i) in vvNew then Entries(infos, vvNew, bucket, i) + [Rank(infos, vvNew[Slot(bucket, i)])]
            else Entries(infos, vvNew, bucket, i)
  {
    assert Entries(infos, vvNew, bucket, i) + [] == Entries(infos, vvNew, bucket, i);
  }

  // The first n buckets of a table with a given number of slots per bucket.
  function Buckets(infos: Infos, vvNew: Table, size: nat, n: nat): (r: seq<seq<int>>)
    requires forall slot :: slot in vvNew ==> vvNew[slot] >= 0
    ensures |r| == n
  {
    if n == 0 then [] else Buckets(infos, vvNew, size, n - 1) + [Entries(infos, vvNew, n - 1, size)]
  }

  lemma {:induction false} IdsInInfos(infos: Infos, n: nat)
    ensures forall i :: 0 <= i < |NewIds(infos, n)| ==>
                          && NewIds(infos, n)[i] in infos && infos[NewIds(infos, n)[i]].nRefCount != 0
                          && 0 <= NewIds(infos, n)[i] < n
    ensures forall i :: 0 <= i < |TriedIds(infos, n)| ==>
                          && TriedIds(infos, n)[i] in infos && infos[TriedIds(infos, n)[i]].fInTried
                          && 0 <= TriedIds(infos, n)[i] < n
  {
    if n > 0 {
      IdsInInfos(infos, n - 1);
    }
  }

  ghost predicate Savable(s: State) {
    s.nIdCount >= 0 && forall slot :: slot in s.vvNew ==> s.vvNew[slot] >= 0
  }

  function Save(s: State): (r: Saved)
    requires Savable(s)
  {
    IdsInInfos(s.mapInfo, s.nIdCount);
    Saved(1, s.nKey, s.nNew, s.nTried, Xor(NEW_BUCKET_COUNT, BUCKETS_MARK),
          DiskInfos(s.mapInfo, NewIds(s.mapInfo, s.nIdCount)), DiskInfos(s.mapInfo, TriedIds(s.mapInfo, s.nIdCount)),
          Buckets(s.mapInfo, s.vvNew, BUCKET_SIZE, NEW_BUCKET_COUNT))
  }

  /* ---- Loading ---- */

  // One entry of the new table. If the saved positions cannot be used it is placed at once.
  function AddNew(env: Env, s: State, info: Info, usable: bool): (r: State) {
    var id := s.nIdCount;
    var slot := env.NewSlot(s.nKey, info.service, info.source);
    var placed := !usable && slot !in s.vvNew;
    s.(nIdCount := id + 1,
       mapInfo := s.mapInfo[id := info.(nRandomPos := |s.vRandom|, nRefCount := if placed then 1 else 0)],
       mapAddr := s.mapAddr[info.service.ip := id],
       vRandom := s.vRandom + [id],
       vvNew := if placed then s.vvNew[slot := id] else s.vvNew)
  }

  function AddNews(env: Env, s: State, infos: seq<Info>, usable: bool): (r: State) {
    if infos == [] then s else AddNew(env, AddNews(env, s, infos[..|infos| - 1], usable), infos[|infos| - 1], usable)
  }

  // One entry of the tried table; it is lost if its slot is taken.
  function AddTried(env: Env, s: State, info: Info): (r: State) {
    var id, slot := s.nIdCount, env.TriedSlot(s.nKey, info.service);
    if slot in s.vvTried then s.(nTried := s.nTried - 1)
    else
      s.(nIdCount := id + 1,
         mapInfo := s.mapInfo[id := info.(nRandomPos := |s.vRandom|, fInTried := true)],
         mapAddr := s.mapAddr[info.service.ip := id],
         vRandom := s.vRandom + [id],
         vvTried := s.vvTried[slot := id])
  }

  function AddTrieds(env: Env, s: State, infos: seq<Info>): (r: State) {
    if infos == [] then s else AddTried(env, AddTrieds(env, s, infos[..|infos| - 1]), infos[|infos| - 1])
  }

  // One saved position of the new table.
  function AddEntry(env: Env, s: State, nNew: int, bucket: int, index: int, usable: bool): (r: State) {
    if !(0 <= index < nNew) || index !in s.mapInfo then s
    else
      var slot := env.NewSlotIn(s.nKey, bucket, s.mapInfo[index].service);
      if usable && slot !in s.vvNew && s.mapInfo[index].nRefCount < NEW_BUCKETS_PER_ADDRESS then
        AddRef(s, slot, index)
      else s
  }

  function AddEntries(env: Env, s: State, nNew: int, bucket: int, entries: seq<int>, usable: bool): (r: State) {
    if entries == [] then s
    else
      var last := |entries| - 1;
      AddEntry(env, AddEntries(env, s, nNew, bucket, entries[..last], usable), nNew, bucket, entries[last], usable)
  }

  function AddBuckets(env: Env, s: State, nNew: int, buckets: seq<seq<int>>, usable: bool): (r: State) {
    if buckets == [] then s
    else
      var last := |buckets| - 1;
      AddEntries(env, AddBuckets(env, s, nNew, buckets[..last], usable), nNew, last, buckets[last], usable)
  }

  function PrunedOne(s: State, id: int): (r: State) {
    if id in s.mapInfo && !s.mapInfo[id].fInTried && s.mapInfo[id].nRefCount == 0 then Delete(s, id) else s
  }

  // Deletes new entries without references, among the ids below n.
  function Pruned(s: State, n: nat): (r: State) {
    if n == 0 then s else
      PrunedOne(Pruned(s, n - 1), n - 1)
  }

  function BucketCount(saved: Saved): (r: nat) {
    if saved.nVersion != 0 then Xor(saved.nUBuckets, BUCKETS_MARK) else saved.nUBuckets
  }

  predicate Usable(saved: Saved) {
    saved.nVersion == 1 && BucketCount(saved) == NEW_BUCKET_COUNT
  }

  // The stream holds as much of everything as its counts say.
  predicate WellFormed(saved: Saved) {
    |saved.news| == saved.nNew && |saved.trieds| == saved.nTried && |saved.buckets| == BucketCount(saved)
  }

  predicate WithinLimits(saved: Saved) {
    saved.nNew <= NEW_BUCKET_COUNT * BUCKET_SIZE && saved.nTried <= TRIED_BUCKET_COUNT * BUCKET_SIZE
  }

  function Start(saved: Saved): (r: State) {
    Empty(saved.nKey).(nNew := saved.nNew, nTried := saved.nTried)
  }

  function Tables(env: Env, saved: Saved): (r: State) {
    AddTrieds(env, AddNews(env, Start(saved), saved.news, Usable(saved)), saved.trieds)
  }

  // A fresh manager after loading.
  function Load(env: Env, saved: Saved): (r: State) {
    var s := AddBuckets(env, Tables(env, saved), saved.nNew, saved.buckets, Usable(saved));
    if s.nIdCount < 0 then s else Pruned(s, s.nIdCount)
  }

  /* ---- What loading a saved manager gives ---- */

  // New ids for old: the order in which entries are loaded.
  function Order(s: State): (r: seq<int>)
    requires s.nIdCount >= 0
  {
    NewIds(s.mapInfo, s.nIdCount) + TriedIds(s.mapInfo, s.nIdCount)
  }

  // The same entry, but for what is kept in memory only.
  predicate SameEntry(a: Info, b: Info) {
    && a.service == b.service && a.nServices == b.nServices && a.nTime == b.nTime && a.source == b.source
    && a.nLastSuccess == b.nLastSuccess && a.nAttempts == b.nAttempts && a.fInTried == b.fInTried
    && a.nLastTry == 0 && a.nLastCountAttempt == 0
  }

  // t is s with the entries renumbered.
  ghost predicate Renumbered(s: State, t: State, order: seq<int>) {
    && (forall k :: k in t.mapInfo <==> 0 <= k < |order|)
    && (forall i, j :: 0 <= i < j < |order| ==> order[i] != order[j])
    && (forall id :: id in s.mapInfo <==> id in order)
    && (forall k :: 0 <= k < |order| ==>
          && SameEntry(t.mapInfo[k], s.mapInfo[order[k]])
          && t.mapInfo[k].nRefCount == s.mapInfo[order[k]].nRefCount)
    && (forall slot :: slot in t.vvNew <==> slot in s.vvNew)
    && (forall slot :: slot in t.vvNew ==> 0 <= t.vvNew[slot] < |order| && order[t.vvNew[slot]] == s.vvNew[slot])
    && (forall slot :: slot in t.vvTried <==> slot in s.vvTried)
    && (forall slot :: slot in t.vvTried ==>
          0 <= t.vvTried[slot] < |order| && order[t.vvTried[slot]] == s.vvTried[slot])
    && (forall ip :: ip in t.mapAddr <==> ip in s.mapAddr)
    && (forall ip :: ip in t.mapAddr ==> 0 <= t.mapAddr[ip] < |order| && order[t.mapAddr[ip]] == s.mapAddr[ip])
    && t.nNew == s.nNew && t.nTried == s.nTried && t.nKey == s.nKey
  }
}
