/** The selection loop of CreateNewBlock, with its queues and counters updated step by step. */
module BlockAssembler {
  import opened BlockAssembly
  import opened Helpers

  lemma RoomLeft(pool: Pool, inBlock: set<nat>, id: nat)
    requires inBlock <= pool.Keys && id in pool && id !in inBlock
    ensures |inBlock| < |inBlock + {id}| <= |pool|
  {
    CardMono(inBlock + {id}, pool.Keys);
  }

  // Behind the coinbase entry, one fee per transaction.
  ghost predicate FeesOk(pool: Pool, vtx: seq<nat>, vTxFees: seq<int>)
    requires forall i :: 0 <= i < |vtx| ==> vtx[i] in pool
  {
    |vTxFees| == |vtx| + 1 && forall i :: 0 <= i < |vtx| ==> vTxFees[i + 1] == pool[vtx[i]].nFee
  }

  lemma FeesAppend(pool: Pool, vtx: seq<nat>, vTxFees: seq<int>, iter: nat)
    requires (forall i :: 0 <= i < |vtx| ==> vtx[i] in pool) && FeesOk(pool, vtx, vTxFees) && iter in pool
    ensures forall i :: 0 <= i < |vtx + [iter]| ==> (vtx + [iter])[i] in pool
    ensures FeesOk(pool, vtx + [iter], vTxFees + [pool[iter].nFee])
  {}

  class BlockAssembler {
    const pool: Pool
    const byScore: seq<nat>
    const lim: Limits

    var vtx: seq<nat>
    var vTxFees: seq<int>
    var coinbaseValue: int
    var inBlock: set<nat>
    var nBlockSize: nat
    var nBlockSigOps: nat
    var nFees: int

    var fPriorityBlock: bool
    var vecPriority: seq<nat>
    var waitPriMap: set<nat>
    var waitSet: set<nat>
    var clearedTxs: seq<nat>
    var mi: nat
    var lastFewTxs: nat
    var actualPriority: real

    constructor (pool: Pool, byScore: seq<nat>, lim: Limits)
      ensures this.pool == pool && this.byScore == byScore && this.lim == lim
    {
      this.pool, this.byScore, this.lim := pool, byScore, lim;
    }

    ghost function B(): (r: Block)
      reads `vtx, `inBlock, `nBlockSize, `nBlockSigOps, `nFees
    {
      Block(vtx, inBlock, nBlockSize, nBlockSigOps, nFees)
    }

    ghost function Q(): (r: Queues)
      reads `fPriorityBlock, `vecPriority, `waitPriMap, `waitSet, `clearedTxs, `mi
    {
      Queues(fPriorityBlock, vecPriority, waitPriMap, waitSet, clearedTxs, mi)
    }

    ghost function Others(): (r: (int, nat, real))
      reads `coinbaseValue, `lastFewTxs, `actualPriority
    {
      (coinbaseValue, lastFewTxs, actualPriority)
    }

    ghost function Now(): (r: Selection)
      reads this
    {
      Selection(B(), Q(), lastFewTxs, actualPriority)
    }

    // The block and its fees, but for the coinbase entry.
    ghost predicate Valid()
      reads `vtx, `inBlock, `nBlockSize, `nBlockSigOps, `nFees, `vTxFees
    {
      PoolOk(pool, byScore) && LimitsOk(lim) && BlockOk(pool, lim, B()) && FeesOk(pool, vtx, vTxFees)
    }

    ghost predicate Room()
      reads `vtx
    {
      lim.nTxMaxCount > 0 ==> |vtx| < lim.nTxMaxCount
    }

    // Attempts are counted only within 1000 bytes of the size limit.
    ghost predicate CountsLast()
      reads `nBlockSize, `lastFewTxs
    {
      lastFewTxs > 0 ==> nBlockSize > lim.nBlockMaxSize - 1000
    }

    // A limit is reached, or nearly.
    ghost predicate Full()
      reads `vtx, `nBlockSize, `nBlockSigOps
    {
      || (lim.nTxMaxCount > 0 && |vtx| >= lim.nTxMaxCount)
      || nBlockSize > lim.nBlockMaxSize - 1000
      || nBlockSigOps > MAX_BLOCK_SIGOPS_COST - 2
    }

    // The top of a heap.
    method Best(s: seq<nat>, value: map<nat, real>) returns (k: nat)
      requires s != [] && forall i :: 0 <= i < |s| ==> s[i] in value
      ensures BestAt(s, value, k)
    {
      k := 0;
      for i := 1 to |s|
        invariant 0 <= k < i && forall j :: 0 <= j < i ==> value[s[j]] <= value[s[k]]
      {
        if value[s[i]] > value[s[k]] {
          k := i;
        }
      }
    }

    // Takes the best transaction off a heap.
    method PopBest(s: seq<nat>, value: map<nat, real>) returns (iter: nat, rest: seq<nat>)
      requires s != [] && forall i :: 0 <= i < |s| ==> s[i] in value
      ensures TopOf(s, value, iter, rest)
      ensures TakenFrom(s, iter, rest) && |rest| == |s| - 1
    {
      var k := Best(s, value);
      iter := s[k];
      Without(s, k);
      rest := s[..k] + s[k + 1..];
    }

    method Pick() returns (iter: nat, priorityTx: bool)
      requires Valid() && QueuesOk(pool, lim, byScore, B(), Q()) && (mi < |byScore| || clearedTxs != [])
      modifies `vecPriority, `mi, `clearedTxs, `actualPriority
      ensures Busy(pool, lim, byScore, B(), Q(), iter, priorityTx)
      ensures Left(byScore, Q()) == old(Left(byScore, Q())) - 1
      ensures IsNext(pool, byScore, old(Q()), iter, priorityTx, Q())
      ensures Now() == Picked(pool, old(Now()), iter, priorityTx, Q())
    {
      priorityTx := fPriorityBlock && vecPriority != [];
      if priorityTx {
        iter := PickByPriority();
      } else if clearedTxs == [] {
        TakeIndexed(pool, lim, byScore, B(), Q());
        iter := byScore[mi];
        mi := mi + 1;
      } else {
        var rest;
        iter, rest := PopBest(clearedTxs, Scores(pool));
        TakeCleared(pool, lim, byScore, B(), Q(), iter, rest);
        clearedTxs := rest;
      }
    }

    method PickByPriority() returns (iter: nat)
      requires Valid() && QueuesOk(pool, lim, byScore, B(), Q()) && fPriorityBlock && vecPriority != []
      modifies `vecPriority, `actualPriority
      ensures Busy(pool, lim, byScore, B(), Q(), iter, true)
      ensures Left(byScore, Q()) == old(Left(byScore, Q())) - 1
      ensures IsNext(pool, byScore, old(Q()), iter, true, Q()) && actualPriority == pool[iter].priority
    {
      var rest;
      iter, rest := PopBest(vecPriority, Priorities(pool));
      TakePriority(pool, lim, byScore, B(), Q(), iter, rest);
      vecPriority, actualPriority := rest, pool[iter].priority;
    }

    // A child that waited for the new transaction is tried again.
    method WakeChild(child: nat)
      modifies this
      ensures Q() == WakeOne(old(Q()), child)
      ensures B() == old(B()) && vTxFees == old(vTxFees) && Others() == old(Others())
    {
      if fPriorityBlock {
        if child in waitPriMap {
          vecPriority := vecPriority + [child];
          waitPriMap := waitPriMap - {child};
        }
      } else {
        if child in waitSet {
          clearedTxs := clearedTxs + [child];
          waitSet := waitSet - {child};
        }
      }
    }

    method WakeChildren(iter: nat)
      modifies this
      ensures Woken(Children(pool, iter), old(Q()), Q())
      ensures B() == old(B()) && vTxFees == old(vTxFees) && Others() == old(Others())
    {
      ghost var children := Children(pool, iter);
      var todo := Children(pool, iter);
      while todo != {}
        invariant todo <= children && Woken(children - todo, old(Q()), Q())
        invariant B() == old(B()) && vTxFees == old(vTxFees) && Others() == old(Others())
        decreases |todo|
      {
        var child :| child in todo;
        WokenStep(children - todo, old(Q()), Q(), child);
        assert children - (todo - {child}) == children - todo + {child};
        WakeChild(child);
        todo := todo - {child};
      }
      assert children - todo == children;
    }

    method AddToBlock(iter: nat)
      requires iter in pool
      modifies this
      ensures B() == Added(pool, old(B()), iter) && vTxFees == old(vTxFees) + [pool[iter].nFee]
      ensures Q() == old(Q()) && Others() == old(Others())
    {
      vtx := vtx + [iter];
      vTxFees := vTxFees + [pool[iter].nFee];
      nBlockSize := nBlockSize + pool[iter].nTxSize;
      nBlockSigOps := nBlockSigOps + pool[iter].nSigOps;
      nFees := nFees + pool[iter].nFee;
      inBlock := inBlock + {iter};
    }

    lemma AddedValid(iter: nat)
      requires Valid() && Room() && iter in pool && iter !in inBlock
      requires !Orphan(pool, inBlock, iter) && !Refused(pool, B(), iter) && !TooBig(pool, lim, B(), iter)
      ensures var b := Added(pool, B(), iter); BlockOk(pool, lim, b) && FeesOk(pool, b.vtx, vTxFees + [pool[iter].nFee])
    {
      AddedOk(pool, lim, B(), iter);
      FeesAppend(pool, vtx, vTxFees, iter);
    }

    // Adds a transaction that passed all tests, and wakes up its children.
    method Include(iter: nat, priorityTx: bool) returns (stop: bool)
      requires Valid() && Room() && Busy(pool, lim, byScore, B(), Q(), iter, priorityTx) && iter !in inBlock
      requires !Orphan(pool, inBlock, iter) && !Refused(pool, B(), iter) && !TooBig(pool, lim, B(), iter)
      modifies this
      ensures Valid() && QueuesOk(pool, lim, byScore, B(), Q()) && if stop then Full() else Room()
      ensures B() == old(Added(pool, B(), iter)) && Others() == old(Others())
      ensures Woken(Children(pool, iter), old(Q()), Q())
      ensures stop <==> lim.nTxMaxCount > 0 && |vtx| >= lim.nTxMaxCount
    {
      ghost var b, q := B(), Q();
      if fPriorityBlock {
        OnlyPriorityAdds(pool, lim, byScore, b, q, iter, priorityTx);
      }
      AddedValid(iter);
      AddToBlock(iter);
      WakeChildren(iter);
      AddedQueues(pool, lim, byScore, b, q, Q(), iter, priorityTx);
      stop := |vtx| >= lim.nTxMaxCount && lim.nTxMaxCount > 0;
    }

    // The tests of a transaction whose parents are in the block.
    method TryInclude(iter: nat, priorityTx: bool) returns (stop: bool)
      requires Valid() && Room() && Busy(pool, lim, byScore, B(), Q(), iter, priorityTx) && iter !in inBlock
      requires !Orphan(pool, inBlock, iter)
      requires (fPriorityBlock ==> !TooBig(pool, lim, B(), iter)) && CountsLast()
      modifies this
      ensures Valid() && QueuesOk(pool, lim, byScore, B(), Q()) && if stop then Full() else Room()
      ensures CountsLast() && coinbaseValue == old(coinbaseValue)
      ensures Tried(pool, lim, old(Now()), iter, Now(), stop)
    {
      if nBlockSize + pool[iter].nTxSize >= lim.nBlockMaxSize {
        PutDown(pool, lim, byScore, B(), Q(), iter, priorityTx);
        if nBlockSize > lim.nBlockMaxSize - 100 || lastFewTxs > 50 {
          return true;
        }
        if nBlockSize > lim.nBlockMaxSize - 1000 {
          lastFewTxs := lastFewTxs + 1;
        }
        return false;
      }
      if pool[iter].coinbase {
        PutDown(pool, lim, byScore, B(), Q(), iter, priorityTx);
        return false;
      }
      if !pool[iter].final {
        PutDown(pool, lim, byScore, B(), Q(), iter, priorityTx);
        return false;
      }
      if nBlockSigOps + pool[iter].nSigOps >= MAX_BLOCK_SIGOPS_COST {
        PutDown(pool, lim, byScore, B(), Q(), iter, priorityTx);
        return nBlockSigOps > MAX_BLOCK_SIGOPS_COST - 2;
      }
      stop := Include(iter, priorityTx);
    }

    // The priority area ends once it is full or a priority is too low.
    method LeavePriority(iter: nat, priorityTx: bool)
      requires Valid() && Busy(pool, lim, byScore, B(), Q(), iter, priorityTx)
      modifies `fPriorityBlock, `waitPriMap
      ensures Busy(pool, lim, byScore, B(), Q(), iter, priorityTx) && Left(byScore, Q()) <= old(Left(byScore, Q()))
      ensures fPriorityBlock ==> !TooBig(pool, lim, B(), iter)
      ensures fPriorityBlock <==>
        old(fPriorityBlock) && nBlockSize + pool[iter].nTxSize < lim.nBlockPrioritySize && AllowFree(actualPriority)
      ensures Now() == AfterArea(pool, lim, old(Now()), iter)
    {
      if fPriorityBlock && (nBlockSize + pool[iter].nTxSize >= lim.nBlockPrioritySize || !AllowFree(actualPriority)) {
        EndPriority(pool, lim, byScore, B(), Q(), iter, priorityTx);
        fPriorityBlock := false;
        waitPriMap := {};
      }
    }

    // An orphan waits for its parents.
    method Postpone(iter: nat, priorityTx: bool)
      requires Busy(pool, lim, byScore, B(), Q(), iter, priorityTx) && Orphan(pool, inBlock, iter)
      modifies `waitPriMap, `waitSet
      ensures QueuesOk(pool, lim, byScore, B(), Q()) && Left(byScore, Q()) == old(Left(byScore, Q()))
      ensures Q() == Postponed(old(Q()), iter, priorityTx)
    {
      PutInWait(pool, lim, byScore, B(), Q(), iter, priorityTx);
      if priorityTx {
        waitPriMap := waitPriMap + {iter};
      } else {
        waitSet := waitSet + {iter};
      }
    }

    // One round: the transaction is put down, put to wait, or added; or the loop stops.
    method Consider(iter: nat, priorityTx: bool) returns (stop: bool)
      requires Valid() && Room() && Busy(pool, lim, byScore, B(), Q(), iter, priorityTx) && CountsLast()
      modifies this
      ensures Valid() && QueuesOk(pool, lim, byScore, B(), Q()) && if stop then Full() else Room()
      ensures CountsLast() && coinbaseValue == old(coinbaseValue)
      ensures Considered(pool, lim, old(Now()), iter, priorityTx, Now(), stop)
    {
      if iter in inBlock {
        PutDown(pool, lim, byScore, B(), Q(), iter, priorityTx);
        return false;
      }
      if !(pool[iter].parents <= inBlock) {
        Postpone(iter, priorityTx);
        return false;
      }
      stop := ConsiderReady(iter, priorityTx);
    }

    method ConsiderReady(iter: nat, priorityTx: bool) returns (stop: bool)
      requires Valid() && Room() && Busy(pool, lim, byScore, B(), Q(), iter, priorityTx) && CountsLast()
      requires iter !in inBlock && !Orphan(pool, inBlock, iter)
      modifies this
      ensures Valid() && QueuesOk(pool, lim, byScore, B(), Q()) && if stop then Full() else Room()
      ensures CountsLast() && coinbaseValue == old(coinbaseValue)
      ensures Tried(pool, lim, AfterArea(pool, lim, old(Now()), iter), iter, Now(), stop)
    {
      LeavePriority(iter, priorityTx);
      stop := TryInclude(iter, priorityTx);
    }

    // Looks at one transaction.
    method Round() returns (stop: bool, ghost look: Look)
      requires Valid() && Room() && QueuesOk(pool, lim, byScore, B(), Q()) && CountsLast()
      requires mi < |byScore| || clearedTxs != []
      modifies this
      ensures Valid() && QueuesOk(pool, lim, byScore, B(), Q()) && CountsLast() && if stop then Full() else Room()
      ensures coinbaseValue == old(coinbaseValue)
      ensures look.before == old(Now()) && LookOk(pool, lim, byScore, look, Now(), stop)
    {
      var iter, priorityTx := Pick();
      look := Look(old(Now()), iter, priorityTx, Now());
      stop := Consider(iter, priorityTx);
    }

    // Either the block grows or there is less left to look at.
    lemma RoundProgress(look: Look, after: Selection, stop: bool)
      requires look.before.b.inBlock <= pool.Keys && LookOk(pool, lim, byScore, look, after, stop)
      ensures Progressed(look.before.b.inBlock, after.b.inBlock, Left(byScore, look.before.q), Left(byScore, after.q))
    {
      if look.iter !in look.before.b.inBlock {
        RoomLeft(pool, look.before.b.inBlock, look.iter);
      }
    }

    // The block grows, or there is less left to look at.
    ghost predicate Progressed(before: set<nat>, after: set<nat>, left: int, left': int) {
      if after == before then left' < left else |before| < |after| <= |pool|
    }

    // Looks at transactions until there are none left to try, or the block is full.
    method Select() returns (tried: bool, ghost trace: seq<Look>)
      requires Valid() && Room() && QueuesOk(pool, lim, byScore, B(), Q()) && CountsLast()
      modifies this
      ensures Valid() && if tried then Maximal(pool, lim, B()) else Full()
      ensures coinbaseValue == old(coinbaseValue)
      ensures TraceOk(pool, lim, byScore, trace, Now(), !tried) && At(trace, Now(), 0) == old(Now())
      ensures tried ==> mi == |byScore| && clearedTxs == []
    {
      trace := [];
      while mi < |byScore| || clearedTxs != []
        invariant Valid() && Room() && QueuesOk(pool, lim, byScore, B(), Q()) && CountsLast()
        invariant coinbaseValue == old(coinbaseValue)
        invariant TraceOk(pool, lim, byScore, trace, Now(), false) && At(trace, Now(), 0) == old(Now())
        decreases |pool| - |inBlock|, Left(byScore, Q())
      {
        ghost var look;
        var stop;
        InPool();
        stop, look := Round();
        RoundProgress(look, Now(), stop);
        TraceStep(pool, lim, byScore, trace, look, Now(), stop);
        trace := trace + [look];
        if stop {
          tried := false;
          return;
        }
      }
      TriedAll(pool, lim, byScore, B(), Q());
      tried := true;
    }

    lemma InPool()
      requires Valid()
      ensures inBlock <= pool.Keys
    {
      forall id | id in inBlock
        ensures id in pool
      {
        var i :| 0 <= i < |vtx| && vtx[i] == id;
      }
    }

    method ResetBlock()
      requires PoolOk(pool, byScore) && LimitsOk(lim)
      modifies `vtx, `vTxFees, `inBlock, `nBlockSize, `nBlockSigOps, `nFees
      ensures Valid() && B() == EMPTY
    {
      vtx, inBlock, vTxFees := [], {}, [-1];
      nBlockSize, nBlockSigOps, nFees := 1000, 100, 0;
    }

    method ResetQueues()
      requires Valid() && B() == EMPTY
      modifies `fPriorityBlock, `vecPriority, `waitPriMap, `waitSet, `clearedTxs, `mi, `lastFewTxs, `actualPriority
      ensures QueuesOk(pool, lim, byScore, B(), Q()) && CountsLast()
      ensures Starts(pool, lim, Now()) && actualPriority == -1.0
    {
      lastFewTxs, actualPriority := 0, -1.0;
      waitPriMap, waitSet, clearedTxs, mi := {}, {}, [], 0;
      fPriorityBlock := lim.nBlockPrioritySize > 0;
      vecPriority := if fPriorityBlock then byScore else [];
      StartsOk(pool, lim, byScore, Q());
    }

    // Fills the block; tried says that the loop ran out of transactions, else it stopped at a limit.
    // The trace holds what was looked at, from the first round on.
    method CreateNewBlock(reward: int) returns (tried: bool, ghost trace: seq<Look>)
      requires PoolOk(pool, byScore) && LimitsOk(lim)
      modifies this
      ensures Valid() && if tried then Maximal(pool, lim, B()) else Full()
      ensures coinbaseValue == reward + TotalFees(pool, vtx) && vTxFees[0] == -TotalFees(pool, vtx)
      ensures Starts(pool, lim, At(trace, Now(), 0)) && TraceOk(pool, lim, byScore, trace, Now(), !tried)
      ensures tried ==> mi == |byScore| && clearedTxs == []
      ensures BestMayLead(pool, lim) ==> vtx != [] && BestPriority(pool, vtx[0])
    {
      coinbaseValue := reward;
      ResetBlock();
      ResetQueues();
      tried, trace := Select();
      if BestMayLead(pool, lim) {
        BestPriorityLeads(pool, lim, byScore, trace, Now(), !tried);
      }
      coinbaseValue := coinbaseValue + nFees;
      vTxFees := vTxFees[0 := -nFees];
    }
  }

  lemma StartsOk(pool: Pool, lim: Limits, byScore: seq<nat>, q: Queues)
    requires PoolOk(pool, byScore) && LimitsOk(lim)
    requires q == Queues(lim.nBlockPrioritySize > 0, if q.fPriorityBlock then byScore else [], {}, {}, [], 0)
    ensures QueuesOk(pool, lim, byScore, EMPTY, q)
  {
    forall i | 0 <= i < |q.vecPriority|
      ensures q.vecPriority[i] in pool
    {
      assert byScore[i] in byScore;
    }
  }
}
