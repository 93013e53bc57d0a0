/** The verification queue: one master and any number of workers share a stack of checks. */
module CheckQueue {
  // Each critical section of the worker loop is one atomic step; local batches and the position in
  // the loop are thread state. A thread blocked on a condition variable is Asleep until it is
  // notified (or wakes spuriously) and Woken until it holds the mutex again.

  datatype Check = Check(id: nat, ok: bool)

  // The fields behind the mutex.
  datatype Shared = Shared(queue: seq<Check>, nIdle: int, nTotal: int, allOk: bool, nTodo: int)

  // Where a thread is, with the batch it has taken but not yet reported.
  datatype Pc =
    | Outside
    | Entering
    | Working(batch: seq<Check>, next: nat, ok: bool)
    | Reporting(batch: seq<Check>, ok: bool)
    | Asleep
    | Woken

  /* ---- The critical sections, as functions of the shared fields ---- */

  // The clean-up at the top of the loop, and the bookkeeping after a wait.
  function Arrive(sh: Shared, pc: Pc): (r: Shared) {
    match pc
    case Reporting(batch, ok) => sh.(allOk := sh.allOk && ok, nTodo := sh.nTodo - |batch|)
    case Woken => sh.(nIdle := sh.nIdle - 1)
    case _ => sh.(nTotal := sh.nTotal + 1)
  }

  function BatchSize(sh: Shared, maxBatch: nat): (r: int)
    requires sh.nTotal + sh.nIdle >= 0
  {
    var fair := |sh.queue| / (sh.nTotal + sh.nIdle + 1);
    var capped := if maxBatch < fair then maxBatch else fair;
    if capped > 1 then capped else 1
  }

  function NewestFirst(checks: seq<Check>): (r: seq<Check>) {
    if checks == [] then [] else NewestFirst(checks[1..]) + [checks[0]]
  }

  // The last n checks, newest first.
  function Popped(queue: seq<Check>, n: nat): (r: seq<Check>)
    requires n <= |queue|
  {
    NewestFirst(queue[|queue| - n..])
  }

  datatype Outcome = Return(result: bool) | Sleep | Take(batch: seq<Check>)

  // The rest of the critical section: return, go to sleep, or take a batch of n checks.
  function SettleWith(sh: Shared, master: bool, n: int): (r: (Shared, Outcome))
    requires sh.queue != [] ==> 1 <= n <= |sh.queue|
  {
    if sh.queue == [] then
      if master && sh.nTodo == 0 then
        (sh.(nTotal := sh.nTotal - 1, allOk := true), Return(sh.allOk))
      else
        (sh.(nIdle := sh.nIdle + 1), Sleep)
    else
      (sh.(queue := sh.queue[..|sh.queue| - n]), Take(Popped(sh.queue, n)))
  }

  function Settle(sh: Shared, master: bool, maxBatch: nat): (r: (Shared, Outcome))
    requires sh.nTotal >= 0 && sh.nIdle >= 0
  {
    BatchSizeBounds(sh, maxBatch);
    SettleWith(sh, master, BatchSize(sh, maxBatch))
  }

  lemma BatchSizeBounds(sh: Shared, maxBatch: nat)
    requires sh.nTotal >= 0 && sh.nIdle >= 0
    ensures sh.queue != [] ==> 1 <= BatchSize(sh, maxBatch) <= |sh.queue|
    ensures maxBatch >= 1 ==> BatchSize(sh, maxBatch) <= maxBatch
  {
    var d := sh.nTotal + sh.nIdle + 1;
    assert |sh.queue| / d <= |sh.queue| by {
      assert |sh.queue| / d * d <= |sh.queue|;
    }
  }

  // A batch is the largest fair share within the limit: with all threads counted, and those that
  // wait counted twice, that many for each would not be more than are queued. One check is always taken.
  lemma BatchIsFairShare(sh: Shared, maxBatch: nat)
    requires sh.nTotal >= 0 && sh.nIdle >= 0
    ensures var n, sharers := BatchSize(sh, maxBatch), sh.nTotal + sh.nIdle + 1;
      && n >= 1
      && (n > 1 ==> n <= maxBatch && n * sharers <= |sh.queue|)
      && (n < maxBatch ==> |sh.queue| < (n + 1) * sharers)
  {
    var sharers := sh.nTotal + sh.nIdle + 1;
    FairShare(|sh.queue|, sharers, |sh.queue| / sharers, maxBatch, BatchSize(sh, maxBatch));
  }

  lemma FairShare(queued: nat, sharers: nat, fair: nat, maxBatch: nat, n: nat)
    requires sharers > 0 && fair == queued / sharers
    requires n == if maxBatch > 1 && fair > 1 then if maxBatch < fair then maxBatch else fair else 1
    ensures n > 1 ==> n <= maxBatch && n * sharers <= queued
    ensures n < maxBatch ==> queued < (n + 1) * sharers
  {
    assert fair * sharers <= queued < (fair + 1) * sharers;
    if 1 < n < fair {
      assert n * sharers + (fair - n) * sharers == fair * sharers;
    }
    if fair == 0 {
      assert (n + 1) * sharers == sharers + sharers;
    }
  }

  // Which workers are notified of new checks.
  datatype Notice = Nobody | OneWorker | AllWorkers

  function NoticeOf(count: nat): (r: Notice) {
    if count == 0 then Nobody else if count == 1 then OneWorker else AllWorkers
  }

  predicate Idle(sh: Shared) {
    sh.nTotal == sh.nIdle && sh.nTodo == 0 && sh.allOk
  }

  /* ---- The object, updated in place under the mutex ---- */

  class CCheckQueue {
    var queue: seq<Check>
    var nIdle: int
    var nTotal: int
    var fAllOk: bool
    var nTodo: int
    const nBatchSize: nat

    ghost function State(): (r: Shared)
      reads this
    {
      Shared(queue, nIdle, nTotal, fAllOk, nTodo)
    }

    constructor (nBatchSizeIn: nat)
      ensures State() == Shared([], 0, 0, true, 0) && nBatchSize == nBatchSizeIn
    {
      queue, nIdle, nTotal, fAllOk, nTodo := [], 0, 0, true, 0;
      nBatchSize := nBatchSizeIn;
    }

    method Add(vChecks: seq<Check>) returns (notice: Notice)
      modifies this
      ensures notice == NoticeOf(|vChecks|)
      ensures (notice.Nobody? <==> vChecks == []) && (notice.AllWorkers? <==> |vChecks| >= 2)
      ensures State() == old(State()).(queue := old(queue) + vChecks, nTodo := old(nTodo) + |vChecks|)
    {
      for i := 0 to |vChecks|
        invariant queue == old(queue) + vChecks[..i]
        invariant nIdle == old(nIdle) && nTotal == old(nTotal) && fAllOk == old(fAllOk) && nTodo == old(nTodo)
      {
        queue := queue + [vChecks[i]];
      }
      assert vChecks[..|vChecks|] == vChecks;
      nTodo := nTodo + |vChecks|;
      notice := Nobody;
      if |vChecks| == 1 {
        notice := OneWorker;
      } else if |vChecks| > 1 {
        notice := AllWorkers;
      }
    }

    // The start of a critical section: clean up the previous pass, count a new thread in, or
    // count a waiter out. notify says whether the master is notified.
    method ArriveLocked(pc: Pc, fMaster: bool) returns (notify: bool)
      requires pc.Entering? || pc.Reporting? || pc.Woken?
      modifies this
      ensures State() == Arrive(old(State()), pc)
      ensures notify <==> pc.Reporting? && !fMaster && nTodo == 0
    {
      notify := false;
      if pc.Woken? {
        nIdle := nIdle - 1;
      } else if pc.Reporting? {
        fAllOk := fAllOk && pc.ok;
        nTodo := nTodo - |pc.batch|;
        notify := nTodo == 0 && !fMaster;
      } else {
        nTotal := nTotal + 1;
      }
    }

    // The rest of it: return, wait, or take a batch.
    method SettleLocked(fMaster: bool) returns (outcome: Outcome)
      requires nTotal >= 0 && nIdle >= 0
      modifies this
      ensures (State(), outcome) == Settle(old(State()), fMaster, nBatchSize)
    {
      if queue == [] {
        if fMaster && nTodo == 0 {
          nTotal := nTotal - 1;
          var fRet := fAllOk;
          fAllOk := true;
          return Return(fRet);
        }
        nIdle := nIdle + 1;
        return Sleep;
      }
      BatchSizeBounds(State(), nBatchSize);
      var share := |queue| / (nTotal + nIdle + 1);
      var nNow := if nBatchSize < share then nBatchSize else share;
      nNow := if nNow > 1 then nNow else 1;
      var vChecks := TakeBatch(nNow);
      return Take(vChecks);
    }

    // One pass of the loop of CCheckQueue::Loop through its critical section.
    method Critical(pc: Pc, fMaster: bool) returns (outcome: Outcome, notify: bool)
      requires pc.Entering? || pc.Reporting? || pc.Woken?
      requires nTotal >= 0 && nIdle >= if pc.Woken? then 1 else 0
      modifies this
      ensures (State(), outcome) == Settle(Arrive(old(State()), pc), fMaster, nBatchSize)
      ensures notify <==> pc.Reporting? && !fMaster && Arrive(old(State()), pc).nTodo == 0
    {
      notify := ArriveLocked(pc, fMaster);
      outcome := SettleLocked(fMaster);
    }

    // Moves the newest nNow checks into a local batch.
    method TakeBatch(nNow: nat) returns (vChecks: seq<Check>)
      requires nNow <= |queue|
      modifies this`queue
      ensures queue == old(queue)[..|old(queue)| - nNow]
      ensures vChecks == Popped(old(queue), nNow)
    {
      vChecks := [];
      for i := 0 to nNow
        invariant queue == old(queue)[..|old(queue)| - i]
        invariant vChecks == Popped(old(queue), i)
      {
        assert old(queue)[|old(queue)| - (i + 1)..][1..] == old(queue)[|old(queue)| - i..];
        vChecks := vChecks + [queue[|queue| - 1]];
        queue := queue[..|queue| - 1];
      }
    }

    method IsIdle() returns (idle: bool)
      ensures idle <==> Idle(State())
    {
      idle := nTotal == nIdle && nTodo == 0 && fAllOk == true;
    }
  }
}
