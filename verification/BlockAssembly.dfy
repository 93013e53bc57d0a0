/** Choosing transactions for a block, as values. */
module BlockAssembly {
  // What a block under construction must satisfy, and what the waiting queues say about every
  // transaction that is not in it yet.

  const MAX_BLOCK_SIGOPS_COST := 640000
  const COIN := 1_0000_0000

  // Score and priority are those of the pool, changed as its owner asked for.
  datatype Entry = Entry(
    nTxSize: nat, nSigOps: nat, nFee: int, parents: set<nat>, coinbase: bool, final: bool, score: real, priority: real)

  type Pool = map<nat, Entry>

  datatype Limits = Limits(nBlockMaxSize: nat, nBlockPrioritySize: nat, nTxMaxCount: nat)

  datatype Block = Block(vtx: seq<nat>, inBlock: set<nat>, nBlockSize: nat, nBlockSigOps: nat, nFees: int)

  datatype Queues = Queues(
    fPriorityBlock: bool, vecPriority: seq<nat>, waitPriMap: set<nat>, waitSet: set<nat>, clearedTxs: seq<nat>, mi: nat)

  // Whether a priority is high enough for a transaction without a fee.
  predicate AllowFree(priority: real) {
    priority > (COIN * 576 / 250) as real
  }

  // Parents of pool entries are pool entries, and the score index lists the whole pool.
  ghost predicate PoolOk(pool: Pool, byScore: seq<nat>) {
    && (forall id :: id in pool ==> pool[id].parents <= pool.Keys)
    && (forall id :: id in pool <==> id in byScore)
  }

  // The index lists the best score first.
  ghost predicate BestFirst(pool: Pool, byScore: seq<nat>)
    requires PoolOk(pool, byScore)
  {
    forall i, j :: 0 <= i < j < |byScore| ==>
      byScore[i] in pool && byScore[j] in pool && pool[byScore[i]].score >= pool[byScore[j]].score
  }

  ghost predicate BestAt(s: seq<nat>, value: map<nat, real>, k: int) {
    0 <= k < |s| && s[k] in value && forall j :: 0 <= j < |s| ==> s[j] in value && value[s[j]] <= value[s[k]]
  }

  function Priorities(pool: Pool): (r: map<nat, real>) {
    map id | id in pool :: pool[id].priority
  }

  function Scores(pool: Pool): (r: map<nat, real>) {
    map id | id in pool :: pool[id].score
  }

  ghost predicate LimitsOk(lim: Limits) {
    lim.nBlockPrioritySize <= lim.nBlockMaxSize && 1000 <= lim.nBlockMaxSize
  }

  function Children(pool: Pool, id: nat): (r: set<nat>) {
    set c | c in pool.Keys && id in pool[c].parents
  }

  /* ---- The block ---- */

  function TotalSize(pool: Pool, vtx: seq<nat>): (r: nat)
    requires forall i :: 0 <= i < |vtx| ==> vtx[i] in pool
  {
    if vtx == [] then 0 else TotalSize(pool, vtx[..|vtx| - 1]) + pool[vtx[|vtx| - 1]].nTxSize
  }

  function TotalSigOps(pool: Pool, vtx: seq<nat>): (r: nat)
    requires forall i :: 0 <= i < |vtx| ==> vtx[i] in pool
  {
    if vtx == [] then 0 else TotalSigOps(pool, vtx[..|vtx| - 1]) + pool[vtx[|vtx| - 1]].nSigOps
  }

  function TotalFees(pool: Pool, vtx: seq<nat>): (r: int)
    requires forall i :: 0 <= i < |vtx| ==> vtx[i] in pool
  {
    if vtx == [] then 0 else TotalFees(pool, vtx[..|vtx| - 1]) + pool[vtx[|vtx| - 1]].nFee
  }

  // No transaction twice, each after all its parents in the pool, and none that may not be mined.
  ghost predicate Ordered(pool: Pool, vtx: seq<nat>) {
    && (forall i :: 0 <= i < |vtx| ==> vtx[i] in pool)
    && (forall i, j :: 0 <= i < j < |vtx| ==> vtx[i] != vtx[j])
    && (forall i :: 0 <= i < |vtx| ==> !pool[vtx[i]].coinbase && pool[vtx[i]].final)
    && (forall i, p :: 0 <= i < |vtx| && p in pool[vtx[i]].parents ==> p in vtx[..i])
  }

  ghost predicate BlockOk(pool: Pool, lim: Limits, b: Block) {
    && Ordered(pool, b.vtx)
    && (forall id :: id in b.inBlock <==> id in b.vtx)
    && b.nBlockSize == 1000 + TotalSize(pool, b.vtx)
    && b.nBlockSigOps == 100 + TotalSigOps(pool, b.vtx)
    && b.nFees == TotalFees(pool, b.vtx)
    && b.nBlockSigOps < MAX_BLOCK_SIGOPS_COST
    && (b.vtx != [] ==> b.nBlockSize < lim.nBlockMaxSize)
    && (lim.nTxMaxCount > 0 ==> |b.vtx| <= lim.nTxMaxCount)
  }

  function Added(pool: Pool, b: Block, id: nat): (r: Block)
    requires id in pool
  {
    var e := pool[id];
    Block(b.vtx + [id], b.inBlock + {id}, b.nBlockSize + e.nTxSize, b.nBlockSigOps + e.nSigOps, b.nFees + e.nFee)
  }

  /* ---- Why a transaction is not in the block ---- */

  predicate Orphan(pool: Pool, inBlock: set<nat>, id: nat)
    requires id in pool
  {
    !(pool[id].parents <= inBlock)
  }

  predicate Refused(pool: Pool, b: Block, id: nat)
    requires id in pool
  {
    pool[id].coinbase || !pool[id].final || b.nBlockSigOps + pool[id].nSigOps >= MAX_BLOCK_SIGOPS_COST
  }

  predicate TooBig(pool: Pool, lim: Limits, b: Block, id: nat)
    requires id in pool
  {
    b.nBlockSize + pool[id].nTxSize >= lim.nBlockMaxSize
  }

  // Nothing can be appended to the block.
  ghost predicate Maximal(pool: Pool, lim: Limits, b: Block) {
    forall id :: id in pool && id !in b.vtx ==>
      Orphan(pool, b.inBlock, id) || Refused(pool, b, id) || TooBig(pool, lim, b, id)
  }

  // What is left out of such a block though it may be mined, and its parents are in, does not fit.
  lemma LeftOutIsTooBig(pool: Pool, lim: Limits, b: Block, id: nat)
    requires Maximal(pool, lim, b) && id in pool && id !in b.vtx && pool[id].parents <= b.inBlock
    requires !pool[id].coinbase && pool[id].final && b.nBlockSigOps + pool[id].nSigOps < 640000
    ensures b.nBlockSize + pool[id].nTxSize >= lim.nBlockMaxSize
  {}

  lemma AddedOk(pool: Pool, lim: Limits, b: Block, id: nat)
    requires BlockOk(pool, lim, b) && id in pool && id !in b.inBlock
    requires !Orphan(pool, b.inBlock, id) && !Refused(pool, b, id) && !TooBig(pool, lim, b, id)
    requires lim.nTxMaxCount > 0 ==> |b.vtx| < lim.nTxMaxCount
    ensures BlockOk(pool, lim, Added(pool, b, id))
  {
    var vtx := b.vtx + [id];
    assert vtx[..|b.vtx|] == b.vtx;
    forall i, p | 0 <= i < |vtx| && p in pool[vtx[i]].parents
      ensures p in vtx[..i]
    {
      if i < |b.vtx| {
        assert vtx[..i] == b.vtx[..i];
      } else {
        assert vtx[..i] == b.vtx;
        assert p in b.inBlock;
      }
    }
  }

  /* ---- The queues ---- */

  // While the priority area is filled, every transaction is in the block, in the priority queue,
  // waiting for a parent or refused; and the score index is not used before the queue is empty.
  ghost predicate PriorityOk(pool: Pool, b: Block, q: Queues, busy: set<nat>) {
    q.fPriorityBlock ==>
      && q.clearedTxs == []
      && (q.vecPriority == [] || (q.mi == 0 && q.waitSet == {}))
      && forall id :: id in pool && id !in busy ==>
                        || id in b.inBlock || id in q.vecPriority || Refused(pool, b, id)
                        || (id in q.waitPriMap && Orphan(pool, b.inBlock, id))
  }

  // Every transaction that the score index has passed is in the block, cleared for another try,
  // waiting for a parent, refused or too big.
  ghost predicate ScoreOk(pool: Pool, lim: Limits, byScore: seq<nat>, b: Block, q: Queues, busy: set<nat>) {
    && q.mi <= |byScore|
    && forall i :: 0 <= i < q.mi && byScore[i] in pool && byScore[i] !in busy ==>
                     var id := byScore[i];
                     id in b.inBlock || id in q.clearedTxs || (id in q.waitSet && Orphan(pool, b.inBlock, id)) ||
                     Refused(pool, b, id) || TooBig(pool, lim, b, id)
  }

  ghost predicate Known(pool: Pool, q: Queues) {
    && (forall i :: 0 <= i < |q.vecPriority| ==> q.vecPriority[i] in pool)
    && (forall i :: 0 <= i < |q.clearedTxs| ==> q.clearedTxs[i] in pool)
    && q.waitPriMap <= pool.Keys && q.waitSet <= pool.Keys
  }

  // What is left to try in the queues.
  function Left(byScore: seq<nat>, q: Queues): (r: int) {
    |q.vecPriority| + |byScore| - q.mi + |q.clearedTxs|
  }

  // Between rounds.
  ghost predicate QueuesOk(pool: Pool, lim: Limits, byScore: seq<nat>, b: Block, q: Queues) {
    Known(pool, q) && PriorityOk(pool, b, q, {}) && ScoreOk(pool, lim, byScore, b, q, {})
  }

  // The best of s, and the others.
  ghost predicate TopOf(s: seq<nat>, value: map<nat, real>, iter: nat, rest: seq<nat>) {
    exists k :: BestAt(s, value, k) && s[k] == iter && rest == s[..k] + s[k + 1..]
  }

  // The transaction to look at next: the best of the priority heap, or else the best of those that wait
  // no longer, or else the best by score that was not looked at. The queues without it are r.
  ghost predicate IsNext(pool: Pool, byScore: seq<nat>, q: Queues, iter: nat, priorityTx: bool, r: Queues) {
    && (priorityTx <==> q.fPriorityBlock && q.vecPriority != [])
    && if priorityTx then
         r == q.(vecPriority := r.vecPriority) && TopOf(q.vecPriority, Priorities(pool), iter, r.vecPriority)
       else if q.clearedTxs != [] then
         r == q.(clearedTxs := r.clearedTxs) && TopOf(q.clearedTxs, Scores(pool), iter, r.clearedTxs)
       else
         q.mi < |byScore| && byScore[q.mi] == iter && r == q.(mi := q.mi + 1)
  }

  // What comes next in the index is the best of all that were not looked at.
  lemma IndexIsBest(pool: Pool, byScore: seq<nat>, mi: nat)
    requires PoolOk(pool, byScore) && BestFirst(pool, byScore) && mi < |byScore|
    ensures BestAt(byScore[mi..], Scores(pool), 0)
  {
    forall j | 0 <= j < |byScore[mi..]|
      ensures byScore[mi..][j] in Scores(pool) && Scores(pool)[byScore[mi..][j]] <= Scores(pool)[byScore[mi]]
    {
      assert byScore[mi + j] in byScore && byScore[mi] in byScore;
    }
  }

  // What is left of a queue when one transaction is taken from it.
  ghost predicate TakenFrom(s: seq<nat>, iter: nat, rest: seq<nat>) {
    iter in s && (forall id :: id in s ==> id == iter || id in rest) && (forall id :: id in rest ==> id in s)
  }

  lemma Without(s: seq<nat>, k: nat)
    requires k < |s|
    ensures TakenFrom(s, s[k], s[..k] + s[k + 1..])
  {
    forall id | id in s
      ensures id == s[k] || id in s[..k] + s[k + 1..]
    {
      var i :| 0 <= i < |s| && s[i] == id;
      if i < k {
        assert s[..k][i] == id;
      } else if i > k {
        assert s[k + 1..][i - k - 1] == id;
      }
    }
  }

  lemma TakePriority(pool: Pool, lim: Limits, byScore: seq<nat>, b: Block, q: Queues, iter: nat, rest: seq<nat>)
    requires QueuesOk(pool, lim, byScore, b, q) && q.fPriorityBlock && TakenFrom(q.vecPriority, iter, rest)
    ensures Busy(pool, lim, byScore, b, q.(vecPriority := rest), iter, true)
  {
    assert forall i :: 0 <= i < |rest| ==> rest[i] in q.vecPriority;
  }

  lemma TakeCleared(pool: Pool, lim: Limits, byScore: seq<nat>, b: Block, q: Queues, iter: nat, rest: seq<nat>)
    requires QueuesOk(pool, lim, byScore, b, q) && (q.fPriorityBlock ==> q.vecPriority == [])
    requires TakenFrom(q.clearedTxs, iter, rest)
    ensures Busy(pool, lim, byScore, b, q.(clearedTxs := rest), iter, false)
  {
    assert forall i :: 0 <= i < |rest| ==> rest[i] in q.clearedTxs;
  }

  lemma TakeIndexed(pool: Pool, lim: Limits, byScore: seq<nat>, b: Block, q: Queues)
    requires PoolOk(pool, byScore) && QueuesOk(pool, lim, byScore, b, q)
    requires (q.fPriorityBlock ==> q.vecPriority == []) && q.mi < |byScore|
    ensures Busy(pool, lim, byScore, b, q.(mi := q.mi + 1), byScore[q.mi], false)
  {
    assert byScore[q.mi] in byScore;
  }

  // While one transaction, taken from some queue, is looked at.
  ghost predicate Busy(pool: Pool, lim: Limits, byScore: seq<nat>, b: Block, q: Queues, iter: nat, priorityTx: bool) {
    && Known(pool, q) && iter in pool
    && PriorityOk(pool, b, q, if priorityTx then {iter} else {})
    && ScoreOk(pool, lim, byScore, b, q, if priorityTx then {} else {iter})
    && (q.fPriorityBlock ==> priorityTx || q.vecPriority == [])
    && (priorityTx && q.fPriorityBlock ==> q.mi == 0 && q.waitSet == {})
  }

  // A transaction that stays out of the block for good can be put down.
  lemma PutDown(pool: Pool, lim: Limits, byScore: seq<nat>, b: Block, q: Queues, iter: nat, priorityTx: bool)
    requires Busy(pool, lim, byScore, b, q, iter, priorityTx)
    requires iter in b.inBlock || Refused(pool, b, iter) || (TooBig(pool, lim, b, iter) && !q.fPriorityBlock)
    ensures QueuesOk(pool, lim, byScore, b, q)
  {}

  // An orphan is put into the waiting set of the phase it came from.
  lemma PutInWait(pool: Pool, lim: Limits, byScore: seq<nat>, b: Block, q: Queues, iter: nat, priorityTx: bool)
    requires Busy(pool, lim, byScore, b, q, iter, priorityTx) && Orphan(pool, b.inBlock, iter)
    ensures QueuesOk(pool, lim, byScore, b, Postponed(q, iter, priorityTx))
  {}

  function Postponed(q: Queues, iter: nat, priorityTx: bool): (r: Queues) {
    if priorityTx then q.(waitPriMap := q.waitPriMap + {iter}) else q.(waitSet := q.waitSet + {iter})
  }

  // Leaving the priority area.
  lemma EndPriority(pool: Pool, lim: Limits, byScore: seq<nat>, b: Block, q: Queues, iter: nat, priorityTx: bool)
    requires Busy(pool, lim, byScore, b, q, iter, priorityTx)
    ensures Busy(pool, lim, byScore, b, OutOfArea(q), iter, priorityTx)
  {}

  function OutOfArea(q: Queues): (r: Queues) {
    q.(fPriorityBlock := false, waitPriMap := {})
  }

  // In the priority phase only a transaction from the priority queue can still be mined.
  lemma OnlyPriorityAdds(pool: Pool, lim: Limits, byScore: seq<nat>, b: Block, q: Queues, iter: nat, priorityTx: bool)
    requires Busy(pool, lim, byScore, b, q, iter, priorityTx) && q.fPriorityBlock && iter !in b.inBlock
    requires !Orphan(pool, b.inBlock, iter) && !Refused(pool, b, iter)
    ensures priorityTx
  {}

  // The queues after some children of an added transaction were woken up.
  ghost predicate Woken(children: set<nat>, q: Queues, r: Queues) {
    && r.fPriorityBlock == q.fPriorityBlock && r.mi == q.mi
    && (if q.fPriorityBlock then
          && r.waitPriMap == q.waitPriMap - children && r.waitSet == q.waitSet && r.clearedTxs == q.clearedTxs
          && (forall id :: id in r.vecPriority <==> id in q.vecPriority || (id in q.waitPriMap && id in children))
        else
          && r.waitSet == q.waitSet - children && r.waitPriMap == q.waitPriMap && r.vecPriority == q.vecPriority
          && (forall id :: id in r.clearedTxs <==> id in q.clearedTxs || (id in q.waitSet && id in children)))
  }

  // One waiting child is moved back to where it is picked from.
  function WakeOne(q: Queues, child: nat): (r: Queues) {
    if q.fPriorityBlock then
      if child in q.waitPriMap then
        q.(vecPriority := q.vecPriority + [child], waitPriMap := q.waitPriMap - {child})
      else q
    else
      if child in q.waitSet then q.(clearedTxs := q.clearedTxs + [child], waitSet := q.waitSet - {child}) else q
  }

  lemma WokenStep(children: set<nat>, q: Queues, r: Queues, child: nat)
    requires Woken(children, q, r)
    ensures Woken(children + {child}, q, WakeOne(r, child))
  {
    if q.fPriorityBlock {
      assert q.waitPriMap - (children + {child}) == q.waitPriMap - children - {child};
    } else {
      assert q.waitSet - (children + {child}) == q.waitSet - children - {child};
    }
  }

  lemma WokenKnown(pool: Pool, children: set<nat>, q: Queues, r: Queues)
    requires Known(pool, q) && Woken(children, q, r)
    ensures Known(pool, r)
  {
    forall i | 0 <= i < |r.vecPriority|
      ensures r.vecPriority[i] in pool
    {
      assert r.vecPriority[i] in r.vecPriority;
    }
    forall i | 0 <= i < |r.clearedTxs|
      ensures r.clearedTxs[i] in pool
    {
      assert r.clearedTxs[i] in r.clearedTxs;
    }
  }

  // A waiting transaction that the new one does not wake up still waits.
  lemma StillOrphan(pool: Pool, inBlock: set<nat>, iter: nat, id: nat)
    requires id in pool && Orphan(pool, inBlock, id) && id !in Children(pool, iter)
    ensures Orphan(pool, inBlock + {iter}, id)
  {}

  lemma AddedQueues(pool: Pool, lim: Limits, byScore: seq<nat>, b: Block, q: Queues, r: Queues, iter: nat,
                    priorityTx: bool)
    requires Busy(pool, lim, byScore, b, q, iter, priorityTx) && Woken(Children(pool, iter), q, r)
    requires q.fPriorityBlock ==> priorityTx
    ensures QueuesOk(pool, lim, byScore, Added(pool, b, iter), r)
  {
    var a := Added(pool, b, iter);
    WokenKnown(pool, Children(pool, iter), q, r);
    if q.fPriorityBlock {
      forall id | id in pool
        ensures id in a.inBlock || id in r.vecPriority || Refused(pool, a, id)
          || (id in r.waitPriMap && Orphan(pool, a.inBlock, id))
      {
        if id in q.waitPriMap && Orphan(pool, b.inBlock, id) && id !in Children(pool, iter) {
          StillOrphan(pool, b.inBlock, iter, id);
        }
      }
    } else {
      forall i | 0 <= i < r.mi && byScore[i] in pool
        ensures var id := byScore[i];
          id in a.inBlock || id in r.clearedTxs || (id in r.waitSet && Orphan(pool, a.inBlock, id)) ||
          Refused(pool, a, id) || TooBig(pool, lim, a, id)
      {
        var id := byScore[i];
        if id in q.waitSet && Orphan(pool, b.inBlock, id) && id !in Children(pool, iter) {
          StillOrphan(pool, b.inBlock, iter, id);
        }
      }
    }
  }

  // When everything has been tried nothing can be appended any more.
  lemma TriedAll(pool: Pool, lim: Limits, byScore: seq<nat>, b: Block, q: Queues)
    requires PoolOk(pool, byScore) && BlockOk(pool, lim, b) && QueuesOk(pool, lim, byScore, b, q)
    requires q.mi == |byScore| && q.clearedTxs == []
    ensures Maximal(pool, lim, b)
  {
    forall id | id in pool && id !in b.vtx
      ensures Orphan(pool, b.inBlock, id) || Refused(pool, b, id) || TooBig(pool, lim, b, id)
    {
      var i :| 0 <= i < |byScore| && byScore[i] == id;
    }
  }

  /* ---- The loop, round by round ---- */

  // Between rounds: the block, the queues, how many transactions were too big for the last 1000 bytes,
  // and the priority that was taken from the heap last.
  datatype Selection = Selection(b: Block, q: Queues, lastFewTxs: nat, actualPriority: real)

  const EMPTY := Block([], {}, 1000, 100, 0)

  // The loop starts with the whole pool queued by priority, unless there is no priority area.
  ghost predicate Starts(pool: Pool, lim: Limits, s: Selection) {
    && s.b == EMPTY && s.lastFewTxs == 0
    && s.q.waitPriMap == {} && s.q.waitSet == {} && s.q.clearedTxs == [] && s.q.mi == 0
    && (s.q.fPriorityBlock <==> lim.nBlockPrioritySize > 0)
    && (forall id :: id in s.q.vecPriority <==> lim.nBlockPrioritySize > 0 && id in pool)
  }

  // A transaction that is not in the block, with all its parents there.
  predicate Ready(pool: Pool, b: Block, iter: nat)
    requires iter in pool
  {
    iter !in b.inBlock && !Orphan(pool, b.inBlock, iter)
  }

  predicate Addable(pool: Pool, lim: Limits, b: Block, iter: nat)
    requires iter in pool
  {
    Ready(pool, b, iter) && !Refused(pool, b, iter) && !TooBig(pool, lim, b, iter)
  }

  // It would fill the priority area, or the priority is too low for a transaction without a fee.
  predicate Overflows(pool: Pool, lim: Limits, b: Block, iter: nat, priority: real)
    requires iter in pool
  {
    b.nBlockSize + pool[iter].nTxSize >= lim.nBlockPrioritySize || !AllowFree(priority)
  }

  function AfterArea(pool: Pool, lim: Limits, s: Selection, iter: nat): (r: Selection)
    requires iter in pool
  {
    if s.q.fPriorityBlock && Overflows(pool, lim, s.b, iter, s.actualPriority) then s.(q := OutOfArea(s.q)) else s
  }

  // What is done about a transaction that is ready: it is too big, or refused, or added, and then its
  // children are woken up.
  ghost predicate Tried(pool: Pool, lim: Limits, s: Selection, iter: nat, t: Selection, stop: bool)
    requires iter in pool
  {
    var size := s.b.nBlockSize;
    if TooBig(pool, lim, s.b, iter) then
      && (stop <==> size > lim.nBlockMaxSize - 100 || s.lastFewTxs > 50)
      && t == s.(lastFewTxs := s.lastFewTxs + if !stop && size > lim.nBlockMaxSize - 1000 then 1 else 0)
    else if Refused(pool, s.b, iter) then
      && t == s
      && (stop <==> !pool[iter].coinbase && pool[iter].final && s.b.nBlockSigOps > MAX_BLOCK_SIGOPS_COST - 2)
    else
      && t == s.(b := Added(pool, s.b, iter), q := t.q)
      && Woken(Children(pool, iter), s.q, t.q)
      && (stop <==> lim.nTxMaxCount > 0 && |t.b.vtx| >= lim.nTxMaxCount)
  }

  // What one round does about the transaction that was picked.
  ghost predicate Considered(pool: Pool, lim: Limits, s: Selection, iter: nat, priorityTx: bool, t: Selection,
                             stop: bool)
    requires iter in pool
  {
    if iter in s.b.inBlock then
      t == s && !stop
    else if Orphan(pool, s.b.inBlock, iter) then
      t == s.(q := Postponed(s.q, iter, priorityTx)) && !stop
    else
      Tried(pool, lim, AfterArea(pool, lim, s, iter), iter, t, stop)
  }

  // Taking a transaction from the priority heap sets the priority that the area is judged by.
  function Picked(pool: Pool, s: Selection, iter: nat, priorityTx: bool, r: Queues): (t: Selection)
    requires iter in pool
  {
    Selection(s.b, r, s.lastFewTxs, if priorityTx then pool[iter].priority else s.actualPriority)
  }

  // A transaction that is looked at, and the selection before and after it was picked.
  datatype Look = Look(before: Selection, iter: nat, priorityTx: bool, picked: Selection)

  ghost predicate LookOk(pool: Pool, lim: Limits, byScore: seq<nat>, look: Look, after: Selection, stop: bool) {
    && look.iter in pool
    && QueuesOk(pool, lim, byScore, look.before.b, look.before.q)
    && IsNext(pool, byScore, look.before.q, look.iter, look.priorityTx, look.picked.q)
    && look.picked == Picked(pool, look.before, look.iter, look.priorityTx, look.picked.q)
    && Considered(pool, lim, look.picked, look.iter, look.priorityTx, after, stop)
  }

  // The selection before look k, or at the end.
  function At(trace: seq<Look>, end: Selection, k: nat): (r: Selection) {
    if k < |trace| then trace[k].before else end
  }

  // Only the last look may stop the loop.
  ghost predicate LookAt(pool: Pool, lim: Limits, byScore: seq<nat>, trace: seq<Look>, end: Selection, stopped: bool,
                         k: nat)
    requires k < |trace|
  {
    LookOk(pool, lim, byScore, trace[k], At(trace, end, k + 1), stopped && k == |trace| - 1)
  }

  // All rounds from the first on.
  ghost predicate TraceOk(pool: Pool, lim: Limits, byScore: seq<nat>, trace: seq<Look>, end: Selection, stopped: bool) {
    (stopped ==> trace != [])
    && forall k :: 0 <= k < |trace| ==> LookAt(pool, lim, byScore, trace, end, stopped, k)
  }

  lemma TraceStep(pool: Pool, lim: Limits, byScore: seq<nat>, trace: seq<Look>, look: Look, after: Selection,
                  stop: bool)
    requires TraceOk(pool, lim, byScore, trace, look.before, false) && LookOk(pool, lim, byScore, look, after, stop)
    ensures TraceOk(pool, lim, byScore, trace + [look], after, stop)
    ensures At(trace + [look], after, 0) == At(trace, look.before, 0)
  {
    var longer := trace + [look];
    forall k | 0 <= k < |longer|
      ensures LookAt(pool, lim, byScore, longer, after, stop, k)
    {
      if k < |trace| {
        assert LookAt(pool, lim, byScore, trace, look.before, false, k);
        assert At(longer, after, k + 1) == At(trace, look.before, k + 1);
      }
    }
  }

  /* ---- What the rounds amount to ---- */

  // The look that ends the priority area, if none before it does.
  predicate EndsArea(pool: Pool, lim: Limits, look: Look) {
    && look.iter in pool && Ready(pool, look.before.b, look.iter)
    && Overflows(pool, lim, look.before.b, look.iter, look.picked.actualPriority)
  }

  // What one look does to the counter, to the area and to the block's transactions.
  ghost predicate Linked(pool: Pool, lim: Limits, look: Look, after: Selection, stop: bool) {
    && (stop || after.lastFewTxs == look.before.lastFewTxs + if Late(pool, lim, look) then 1 else 0)
    && (after.q.fPriorityBlock <==> look.before.q.fPriorityBlock && !EndsArea(pool, lim, look))
    && (after.b.vtx == look.before.b.vtx || after.b.vtx == look.before.b.vtx + [look.iter])
  }

  ghost predicate LinkedAt(pool: Pool, lim: Limits, trace: seq<Look>, end: Selection, stopped: bool, k: nat)
    requires k < |trace|
  {
    Linked(pool, lim, trace[k], At(trace, end, k + 1), stopped && k == |trace| - 1)
  }

  ghost predicate AllLinked(pool: Pool, lim: Limits, trace: seq<Look>, end: Selection, stopped: bool) {
    forall k :: 0 <= k < |trace| ==> LinkedAt(pool, lim, trace, end, stopped, k)
  }

  lemma TraceLinked(pool: Pool, lim: Limits, byScore: seq<nat>, trace: seq<Look>, end: Selection, stopped: bool)
    requires TraceOk(pool, lim, byScore, trace, end, stopped)
    ensures AllLinked(pool, lim, trace, end, stopped)
  {
    forall k | 0 <= k < |trace|
      ensures LinkedAt(pool, lim, trace, end, stopped, k)
    {
      assert LookAt(pool, lim, byScore, trace, end, stopped, k);
      AreaStep(pool, lim, byScore, trace[k], At(trace, end, k + 1), stopped && k == |trace| - 1);
      LookCounts(pool, lim, byScore, trace[k], At(trace, end, k + 1), stopped && k == |trace| - 1);
      LookAdds(pool, lim, byScore, trace[k], At(trace, end, k + 1), stopped && k == |trace| - 1);
    }
  }

  // None of the first k looks ends the area.
  ghost predicate Lasts(pool: Pool, lim: Limits, trace: seq<Look>, k: nat)
    requires k <= |trace|
  {
    forall j :: 0 <= j < k ==> !EndsArea(pool, lim, trace[j])
  }

  lemma LastsStep(pool: Pool, lim: Limits, trace: seq<Look>, k: nat)
    requires k < |trace|
    ensures Lasts(pool, lim, trace, k + 1) <==> Lasts(pool, lim, trace, k) && !EndsArea(pool, lim, trace[k])
  {}

  lemma {:induction false} AreaLasts(pool: Pool, lim: Limits, trace: seq<Look>, end: Selection, stopped: bool, k: nat)
    requires AllLinked(pool, lim, trace, end, stopped) && k <= |trace|
    ensures At(trace, end, k).q.fPriorityBlock <==> At(trace, end, 0).q.fPriorityBlock && Lasts(pool, lim, trace, k)
  {
    if k > 0 {
      AreaLasts(pool, lim, trace, end, stopped, k - 1);
      LastsStep(pool, lim, trace, k - 1);
      assert LinkedAt(pool, lim, trace, end, stopped, k - 1);
    }
  }

  // The priority area lasts until the first ready transaction that fills it or is not allowed free.
  lemma AreaEnds(pool: Pool, lim: Limits, byScore: seq<nat>, trace: seq<Look>, end: Selection, stopped: bool, k: nat)
    requires TraceOk(pool, lim, byScore, trace, end, stopped) && Starts(pool, lim, At(trace, end, 0)) && k <= |trace|
    ensures At(trace, end, k).q.fPriorityBlock
      <==> lim.nBlockPrioritySize > 0 && forall j :: 0 <= j < k ==> !EndsArea(pool, lim, trace[j])
  {
    TraceLinked(pool, lim, byScore, trace, end, stopped);
    AreaLasts(pool, lim, trace, end, stopped, k);
  }

  lemma AreaStep(pool: Pool, lim: Limits, byScore: seq<nat>, look: Look, after: Selection, stop: bool)
    requires LookOk(pool, lim, byScore, look, after, stop)
    ensures after.q.fPriorityBlock <==> look.before.q.fPriorityBlock && !EndsArea(pool, lim, look)
  {}

  // A transaction is added exactly if it was looked at and could be; nothing else changes the block.
  lemma LookAdds(pool: Pool, lim: Limits, byScore: seq<nat>, look: Look, after: Selection, stop: bool)
    requires LookOk(pool, lim, byScore, look, after, stop)
    ensures after.b == if Addable(pool, lim, look.before.b, look.iter) then Added(pool, look.before.b, look.iter)
                       else look.before.b
  {}

  // While the priority area has transactions queued, none that could be added has a better priority
  // than the one looked at. After that, unless some wait no longer, none has a better score.
  lemma LookIsGreedy(pool: Pool, lim: Limits, byScore: seq<nat>, look: Look, after: Selection, stop: bool, id: nat)
    requires PoolOk(pool, byScore) && BestFirst(pool, byScore)
    requires LookOk(pool, lim, byScore, look, after, stop)
    requires id in pool && Addable(pool, lim, look.before.b, id)
    ensures look.priorityTx ==> pool[id].priority <= pool[look.iter].priority
    ensures !look.priorityTx && look.before.q.clearedTxs == [] ==> pool[id].score <= pool[look.iter].score
    ensures !look.priorityTx && look.before.q.fPriorityBlock ==> look.before.q.vecPriority == []
  {
    var q := look.before.q;
    if look.priorityTx {
      assert id in q.vecPriority;
    } else if q.clearedTxs == [] {
      var i :| 0 <= i < |byScore| && byScore[i] == id;
      assert i >= q.mi;
    }
  }

  // The block only ever grows at its end.
  lemma {:induction false} BlockGrows(pool: Pool, lim: Limits, trace: seq<Look>, end: Selection, stopped: bool,
                                      i: nat, k: nat)
    requires AllLinked(pool, lim, trace, end, stopped) && i <= k <= |trace|
    ensures At(trace, end, i).b.vtx <= At(trace, end, k).b.vtx
    decreases k - i
  {
    if i < k {
      BlockGrows(pool, lim, trace, end, stopped, i, k - 1);
      assert LinkedAt(pool, lim, trace, end, stopped, k - 1);
    }
  }

  ghost predicate BestPriority(pool: Pool, id: nat) {
    id in pool && forall o :: o in pool ==> pool[o].priority <= pool[id].priority
  }

  // What a transaction needs to be the first in the block: its priority must be above that of a coin
  // that is 576 blocks old, for 250 bytes.
  predicate MayLead(pool: Pool, lim: Limits, id: nat) {
    && id in pool && pool[id].parents == {} && !pool[id].coinbase && pool[id].final && 100 + pool[id].nSigOps < 640000
    && 1000 + pool[id].nTxSize < lim.nBlockPrioritySize && pool[id].priority * 250.0 > (COIN * 576) as real
  }

  // Every transaction with the best priority of the pool is final, without parents, small enough for
  // the priority area and allowed free.
  ghost predicate BestMayLead(pool: Pool, lim: Limits) {
    && (exists id :: BestPriority(pool, id))
    && forall id :: BestPriority(pool, id) ==> MayLead(pool, lim, id)
  }

  // The first transaction of the block is then one of them.
  lemma BestPriorityLeads(pool: Pool, lim: Limits, byScore: seq<nat>, trace: seq<Look>, end: Selection, stopped: bool)
    requires PoolOk(pool, byScore) && LimitsOk(lim) && TraceOk(pool, lim, byScore, trace, end, stopped)
    requires Starts(pool, lim, At(trace, end, 0)) && (stopped || end.q.mi == |byScore|)
    requires BestMayLead(pool, lim)
    ensures end.b.vtx != [] && BestPriority(pool, end.b.vtx[0])
  {
    assert trace != [] by {
      var id :| BestPriority(pool, id);
      assert id in byScore;
    }
    var look, after := trace[0], At(trace, end, 1);
    assert LookAt(pool, lim, byScore, trace, end, stopped, 0);
    FirstIsBest(pool, lim, byScore, look);
    LookAdds(pool, lim, byScore, look, after, stopped && 0 == |trace| - 1);
    assert after.b.vtx == [look.iter];
    TraceLinked(pool, lim, byScore, trace, end, stopped);
    BlockGrows(pool, lim, trace, end, stopped, 1, |trace|);
    assert end.b.vtx[0] == after.b.vtx[0];
  }

  lemma FirstIsBest(pool: Pool, lim: Limits, byScore: seq<nat>, look: Look)
    requires look.iter in pool && Starts(pool, lim, look.before) && lim.nBlockPrioritySize > 0
    requires IsNext(pool, byScore, look.before.q, look.iter, look.priorityTx, look.picked.q)
    ensures look.priorityTx && BestPriority(pool, look.iter)
  {
    var queue := look.before.q.vecPriority;
    assert look.iter in queue;
    forall o | o in pool
      ensures pool[o].priority <= pool[look.iter].priority
    {
      assert o in queue;
    }
  }

  // Within 1000 bytes of the limit, and too big for it.
  predicate Late(pool: Pool, lim: Limits, look: Look) {
    && look.iter in pool && Ready(pool, look.before.b, look.iter) && TooBig(pool, lim, look.before.b, look.iter)
    && look.before.b.nBlockSize > lim.nBlockMaxSize - 1000
  }

  // Those among the first k looks.
  function LateLooks(pool: Pool, lim: Limits, trace: seq<Look>, k: nat): (r: set<nat>)
    requires k <= |trace|
  {
    set j: nat | j < k && Late(pool, lim, trace[j])
  }

  lemma {:induction false} LateCounted(pool: Pool, lim: Limits, trace: seq<Look>, end: Selection, stopped: bool, k: nat)
    requires AllLinked(pool, lim, trace, end, stopped) && k <= |trace| && (stopped ==> k < |trace|)
    ensures At(trace, end, k).lastFewTxs == At(trace, end, 0).lastFewTxs + |LateLooks(pool, lim, trace, k)|
  {
    if k > 0 {
      LateCounted(pool, lim, trace, end, stopped, k - 1);
      assert LinkedAt(pool, lim, trace, end, stopped, k - 1);
      var less := LateLooks(pool, lim, trace, k - 1);
      assert LateLooks(pool, lim, trace, k) == if Late(pool, lim, trace[k - 1]) then less + {k - 1} else less;
    }
  }

  // What stops the loop: the limit on the number of transactions is reached; or there is one too big
  // when no more than 99 bytes are left, or 51 were too big for the last 1000 bytes; or no signature
  // check is left for one that may be mined.
  predicate StopsFor(pool: Pool, lim: Limits, b: Block, iter: nat, late: nat) {
    && iter in pool && Ready(pool, b, iter)
    && if TooBig(pool, lim, b, iter) then b.nBlockSize > lim.nBlockMaxSize - 100 || late > 50
       else if Refused(pool, b, iter) then
         !pool[iter].coinbase && pool[iter].final && b.nBlockSigOps > MAX_BLOCK_SIGOPS_COST - 2
       else lim.nTxMaxCount > 0 && |b.vtx| + 1 >= lim.nTxMaxCount
  }

  lemma StopsExactly(pool: Pool, lim: Limits, byScore: seq<nat>, trace: seq<Look>, end: Selection, stopped: bool,
                     k: nat)
    requires TraceOk(pool, lim, byScore, trace, end, stopped) && Starts(pool, lim, At(trace, end, 0)) && k < |trace|
    ensures stopped && k == |trace| - 1
      <==> StopsFor(pool, lim, trace[k].before.b, trace[k].iter, |LateLooks(pool, lim, trace, k)|)
  {
    TraceLinked(pool, lim, byScore, trace, end, stopped);
    LateCounted(pool, lim, trace, end, stopped, k);
    assert LookAt(pool, lim, byScore, trace, end, stopped, k);
    LookStops(pool, lim, byScore, trace[k], At(trace, end, k + 1), stopped && k == |trace| - 1);
  }

  lemma LookStops(pool: Pool, lim: Limits, byScore: seq<nat>, look: Look, after: Selection, stop: bool)
    requires LookOk(pool, lim, byScore, look, after, stop)
    ensures stop <==> StopsFor(pool, lim, look.before.b, look.iter, look.before.lastFewTxs)
  {}

  lemma LookCounts(pool: Pool, lim: Limits, byScore: seq<nat>, look: Look, after: Selection, stop: bool)
    requires LookOk(pool, lim, byScore, look, after, stop)
    ensures stop || after.lastFewTxs == look.before.lastFewTxs + if Late(pool, lim, look) then 1 else 0
  {}
}
