/** The whole protocol: any interleaving of the critical sections of one master and any number of workers. */
module CheckQueueProtocol {
  // Thread 0 is the master. The state carries, for the current round (since the last Wait returned),
  // which checks were added, evaluated, skipped and reported. No step reads this history.

  import opened CheckQueue

  datatype History = History(added: multiset<Check>, ran: multiset<Check>,
                             skipped: multiset<Check>, reported: multiset<Check>)

  const NO_HISTORY := History(multiset{}, multiset{}, multiset{}, multiset{})

  datatype State = State(sh: Shared, threads: seq<Pc>, maxBatch: nat, history: History)

  datatype Step =
    | StepAdd(checks: seq<Check>, notified: set<nat>)
    | StepWait
    | StepLock(t: nat, n: int)
    | StepRun(t: nat)
    | StepFinish(t: nat)
    | StepSpurious(t: nat)

  /* ---- The transition system ---- */

  ghost predicate Init(s: State) {
    && s.sh == Shared([], 0, 0, true, 0)
    && |s.threads| >= 1 && s.threads[0] == Outside
    && (forall t :: 1 <= t < |s.threads| ==> s.threads[t] == Entering)
    && s.history == NO_HISTORY
  }

  predicate IsWorker(s: State, t: int) {
    1 <= t < |s.threads|
  }

  // notify_one wakes one sleeping worker if there is any; notify_all wakes every one.
  ghost predicate NotifiedOk(s: State, notice: Notice, notified: set<nat>) {
    && (forall t :: t in notified ==> IsWorker(s, t) && s.threads[t].Asleep?)
    && match notice
       case Nobody => notified == {}
       case OneWorker =>
         && |notified| <= 1
         && (notified == {} ==> forall t :: IsWorker(s, t) ==> !s.threads[t].Asleep?)
       case AllWorkers => forall t :: IsWorker(s, t) && s.threads[t].Asleep? ==> t in notified
  }

  // Thread t may take the mutex and, if there is work, take n checks.
  predicate CanLock(s: State, t: nat, n: int) {
    && t < |s.threads|
    && (s.threads[t].Entering? || s.threads[t].Reporting? || s.threads[t].Woken?)
    && (s.sh.queue != [] ==> 1 <= n <= |s.sh.queue|)
  }

  ghost predicate Enabled(s: State, step: Step)
    requires |s.threads| >= 1
  {
    match step
    case StepAdd(checks, notified) => s.threads[0].Outside? && NotifiedOk(s, NoticeOf(|checks|), notified)
    case StepWait => s.threads[0].Outside?
    case StepLock(t, n) =>
      && CanLock(s, t, n)
      && s.sh.nTotal >= 0 && s.sh.nIdle >= Waiting(s.threads[t])
      && n == BatchSize(Arrive(s.sh, s.threads[t]), s.maxBatch)
    case StepRun(t) => t < |s.threads| && s.threads[t].Working? && s.threads[t].next < |s.threads[t].batch|
    case StepFinish(t) => t < |s.threads| && s.threads[t].Working? && s.threads[t].next == |s.threads[t].batch|
    case StepSpurious(t) => t < |s.threads| && s.threads[t].Asleep?
  }

  function Wake(threads: seq<Pc>, notified: set<nat>): (r: seq<Pc>) {
    seq(|threads|, t requires 0 <= t < |threads| => if t in notified then Woken else threads[t])
  }

  // The batch a thread reports when it takes the mutex.
  function Batch(pc: Pc): (r: seq<Check>) {
    if pc.Reporting? || pc.Working? then pc.batch else []
  }

  predicate NotifiesMaster(s: State, t: nat)
    requires t < |s.threads|
  {
    t != 0 && s.threads[t].Reporting? && Arrive(s.sh, s.threads[t]).nTodo == 0
  }

  function AfterNotify(s: State, t: nat): (r: seq<Pc>)
    requires t < |s.threads|
  {
    if NotifiesMaster(s, t) && s.threads[0].Asleep? then s.threads[0 := Woken] else s.threads
  }

  // What thread t gets out of its critical section.
  function Decision(s: State, t: nat, n: int): (r: (Shared, Outcome))
    requires CanLock(s, t, n)
  {
    SettleWith(Arrive(s.sh, s.threads[t]), t == 0, n)
  }

  function NextPc(s: State, t: nat, n: int): (r: Pc)
    requires CanLock(s, t, n)
  {
    var (sh, outcome) := Decision(s, t, n);
    match outcome
    case Return(_) => Outside
    case Sleep => Asleep
    case Take(batch) => Working(batch, 0, sh.allOk)
  }

  function Lock(s: State, t: nat, n: int): (r: State)
    requires CanLock(s, t, n)
  {
    var (sh, outcome) := Decision(s, t, n);
    var reported := s.history.reported + multiset(Batch(s.threads[t]));
    var history := if outcome.Return? then NO_HISTORY else s.history.(reported := reported);
    State(sh, AfterNotify(s, t)[t := NextPc(s, t, n)], s.maxBatch, history)
  }

  // One check of a batch: evaluated while everything so far is fine, skipped otherwise.
  function RunOne(s: State, t: nat): (r: State)
    requires t < |s.threads| && s.threads[t].Working? && s.threads[t].next < |s.threads[t].batch|
  {
    var pc := s.threads[t];
    var c := pc.batch[pc.next];
    var history :=
      if pc.ok then s.history.(ran := s.history.ran + multiset{c})
      else s.history.(skipped := s.history.skipped + multiset{c});
    s.(threads := s.threads[t := Working(pc.batch, pc.next + 1, pc.ok && c.ok)], history := history)
  }

  ghost function Apply(s: State, step: Step): (r: State)
    requires |s.threads| >= 1 && Enabled(s, step)
  {
    match step
    case StepAdd(checks, notified) =>
      s.(sh := s.sh.(queue := s.sh.queue + checks, nTodo := s.sh.nTodo + |checks|),
         threads := Wake(s.threads, notified),
         history := s.history.(added := s.history.added + multiset(checks)))
    case StepWait => s.(threads := s.threads[0 := Entering])
    case StepLock(t, n) => Lock(s, t, n)
    case StepRun(t) => RunOne(s, t)
    case StepFinish(t) => s.(threads := s.threads[t := Reporting(s.threads[t].batch, s.threads[t].ok)])
    case StepSpurious(t) => s.(threads := s.threads[t := Woken])
  }

  // The step on which Wait returns to the master, and what it returns.
  ghost predicate WaitReturns(s: State, n: int, result: bool) {
    CanLock(s, 0, n) && Decision(s, 0, n).1 == Return(result)
  }

  /* ---- Sums over the threads ---- */

  ghost function Sum(threads: seq<Pc>, f: Pc -> int): (r: int) {
    if threads == [] then 0 else f(threads[0]) + Sum(threads[1..], f)
  }

  ghost function Union(threads: seq<Pc>, f: Pc -> multiset<Check>): (r: multiset<Check>) {
    if threads == [] then multiset{} else f(threads[0]) + Union(threads[1..], f)
  }

  lemma {:induction false} SumUpdate(threads: seq<Pc>, t: nat, pc: Pc, f: Pc -> int)
    requires t < |threads|
    ensures Sum(threads[t := pc], f) == Sum(threads, f) - f(threads[t]) + f(pc)
  {
    if t > 0 {
      SumUpdate(threads[1..], t - 1, pc, f);
      assert threads[t := pc][1..] == threads[1..][t - 1 := pc];
    } else {
      assert threads[t := pc][1..] == threads[1..];
    }
  }

  lemma {:induction false} UnionUpdate(threads: seq<Pc>, t: nat, pc: Pc, f: Pc -> multiset<Check>)
    requires t < |threads|
    ensures Union(threads[t := pc], f) + f(threads[t]) == Union(threads, f) + f(pc)
  {
    if t > 0 {
      UnionUpdate(threads[1..], t - 1, pc, f);
      assert threads[t := pc][1..] == threads[1..][t - 1 := pc];
      assert f(threads[0]) + Union(threads[1..][t - 1 := pc], f) + f(threads[t])
          == f(threads[0]) + (Union(threads[1..][t - 1 := pc], f) + f(threads[t]));
    } else {
      assert threads[t := pc][1..] == threads[1..];
    }
  }

  // Waking sleepers leaves every sum unchanged whose summand ignores the difference.
  lemma {:induction false} SumWake(threads: seq<Pc>, notified: set<nat>, f: Pc -> int)
    requires forall t :: t in notified && t < |threads| ==> threads[t].Asleep?
    requires f(Asleep) == f(Woken)
    ensures Sum(Wake(threads, notified), f) == Sum(threads, f)
  {
    SumPointwise(threads, Wake(threads, notified), f);
  }

  lemma {:induction false} SumPointwise(a: seq<Pc>, b: seq<Pc>, f: Pc -> int)
    requires |a| == |b| && forall t :: 0 <= t < |a| ==> f(a[t]) == f(b[t])
    ensures Sum(a, f) == Sum(b, f)
  {
    if a != [] {
      SumPointwise(a[1..], b[1..], f);
    }
  }

  lemma {:induction false} UnionPointwise(a: seq<Pc>, b: seq<Pc>, f: Pc -> multiset<Check>)
    requires |a| == |b| && forall t :: 0 <= t < |a| ==> f(a[t]) == f(b[t])
    ensures Union(a, f) == Union(b, f)
  {
    if a != [] {
      UnionPointwise(a[1..], b[1..], f);
    }
  }

  lemma {:induction false} SumPositive(threads: seq<Pc>, f: Pc -> int) returns (t: nat)
    requires Sum(threads, f) > 0
    ensures t < |threads| && f(threads[t]) > 0
  {
    if f(threads[0]) > 0 {
      t := 0;
    } else {
      t := SumPositive(threads[1..], f);
      t := t + 1;
    }
  }

  lemma {:induction false} SumZero(threads: seq<Pc>, f: Pc -> int)
    requires forall pc :: f(pc) >= 0
    ensures Sum(threads, f) >= 0
    ensures Sum(threads, f) == 0 ==> forall t :: 0 <= t < |threads| ==> f(threads[t]) == 0
  {
    if threads != [] {
      SumZero(threads[1..], f);
      if Sum(threads, f) == 0 {
        forall t | 0 <= t < |threads|
          ensures f(threads[t]) == 0
        {
          if t > 0 {
            assert threads[1..][t - 1] == threads[t];
          }
        }
      }
    }
  }

  /* ---- What every reachable state satisfies ---- */

  function Unreported(pc: Pc): (r: int) {
    |Batch(pc)|
  }

  function Waiting(pc: Pc): (r: int) {
    if pc.Asleep? || pc.Woken? then 1 else 0
  }

  function InLoop(pc: Pc): (r: int) {
    if pc.Outside? || pc.Entering? then 0 else 1
  }

  function InFlight(pc: Pc): (r: multiset<Check>) {
    multiset(Batch(pc))
  }

  // The checks of a batch that are neither evaluated nor skipped yet.
  function Unrun(pc: Pc): (r: multiset<Check>) {
    if pc.Working? && pc.next <= |pc.batch| then multiset(pc.batch[pc.next..]) else multiset{}
  }

  ghost predicate AllGood(checks: multiset<Check>) {
    forall c :: c in checks ==> c.ok
  }

  ghost predicate ThreadsOk(s: State) {
    && |s.threads| >= 1
    && (forall t :: 1 <= t < |s.threads| ==> !s.threads[t].Outside?)
    && (forall t :: 0 <= t < |s.threads| && s.threads[t].Working? ==> s.threads[t].next <= |s.threads[t].batch|)
    && (forall t :: 0 <= t < |s.threads| && (s.threads[t].Working? || s.threads[t].Reporting?) ==>
          s.threads[t].batch != [])
  }

  // The counters mean what their comments say.
  ghost predicate CountsOk(s: State) {
    && s.sh.nTodo == |s.sh.queue| + Sum(s.threads, Unreported)
    && s.sh.nIdle == Sum(s.threads, Waiting)
    && s.sh.nTotal == Sum(s.threads, InLoop)
  }

  // Every check of the round is queued, in exactly one batch, or reported.
  ghost predicate Located(s: State) {
    s.history.added == multiset(s.sh.queue) + Union(s.threads, InFlight) + s.history.reported
  }

  // And it is evaluated, skipped or still to come: never two of these, and never twice.
  ghost predicate Accounted(s: State) {
    s.history.added
      == multiset(s.sh.queue) + Union(s.threads, Unrun) + (s.history.ran + s.history.skipped)
  }

  // The verdict a thread carries about its own batch.
  ghost predicate ThreadVerdictOk(pc: Pc, added: multiset<Check>) {
    match pc
    case Working(batch, next, ok) =>
      next <= |batch| && if ok then AllGood(multiset(batch[..next])) else !AllGood(added)
    case Reporting(batch, ok) => if ok then AllGood(multiset(batch)) else !AllGood(added)
    case _ => true
  }

  ghost predicate VerdictOk(s: State) {
    && (if s.sh.allOk then AllGood(s.history.reported) else !AllGood(s.history.added))
    && (s.history.skipped != multiset{} ==> !AllGood(s.history.added))
    && (forall t :: 0 <= t < |s.threads| ==> ThreadVerdictOk(s.threads[t], s.history.added))
  }

  // The master sleeps only while some batch is out.
  ghost predicate SleepOk(s: State)
    requires |s.threads| >= 1
  {
    s.threads[0].Asleep? ==> s.sh.queue == [] && s.sh.nTodo > 0
  }

  ghost predicate Inv(s: State) {
    ThreadsOk(s) && CountsOk(s) && Located(s) && Accounted(s) && VerdictOk(s) && SleepOk(s)
  }

  lemma CountersNonNegative(s: State)
    requires CountsOk(s)
    ensures s.sh.nTotal >= 0 && s.sh.nIdle >= 0
    ensures forall t :: 0 <= t < |s.threads| && s.threads[t].Woken? ==> s.sh.nIdle >= 1
  {
    SumZero(s.threads, Waiting);
    SumZero(s.threads, InLoop);
    forall t | 0 <= t < |s.threads| && s.threads[t].Woken?
      ensures s.sh.nIdle >= 1
    {
      SumUpdate(s.threads, t, Outside, Waiting);
      SumZero(s.threads[t := Outside], Waiting);
    }
  }

  lemma InitInv(s: State)
    requires Init(s)
    ensures Inv(s)
  {
    assert s.threads == [Outside] + s.threads[1..];
    var idle := seq(|s.threads|, _ => Outside);
    SumPointwise(s.threads, idle, Unreported);
    SumPointwise(s.threads, idle, Waiting);
    SumPointwise(s.threads, idle, InLoop);
    UnionPointwise(s.threads, idle, InFlight);
    UnionPointwise(s.threads, idle, Unrun);
    NoThreads(idle);
  }

  lemma {:induction false} NoThreads(idle: seq<Pc>)
    requires forall t :: 0 <= t < |idle| ==> idle[t] == Outside
    ensures Sum(idle, Unreported) == Sum(idle, Waiting) == Sum(idle, InLoop) == 0
    ensures Union(idle, InFlight) == Union(idle, Unrun) == multiset{}
  {
    if idle != [] {
      NoThreads(idle[1..]);
    }
  }

  // Replacing thread t, after possibly waking the master, moves every sum by t's share alone.
  lemma SumReplace(s: State, t: nat, pc: Pc, f: Pc -> int)
    requires t < |s.threads| && f(Asleep) == f(Woken)
    ensures Sum(AfterNotify(s, t)[t := pc], f) == Sum(s.threads, f) - f(s.threads[t]) + f(pc)
  {
    SumUpdate(s.threads, 0, Woken, f);
    SumUpdate(AfterNotify(s, t), t, pc, f);
  }

  lemma UnionReplace(s: State, t: nat, pc: Pc, f: Pc -> multiset<Check>)
    requires t < |s.threads| && f(Asleep) == f(Woken)
    ensures Union(AfterNotify(s, t)[t := pc], f) + f(s.threads[t]) == Union(s.threads, f) + f(pc)
  {
    UnionPointwise(s.threads, AfterNotify(s, t), f);
    UnionUpdate(AfterNotify(s, t), t, pc, f);
  }

  lemma {:induction false} NewestFirstContents(checks: seq<Check>)
    ensures multiset(NewestFirst(checks)) == multiset(checks)
    ensures |NewestFirst(checks)| == |checks|
  {
    if checks != [] {
      NewestFirstContents(checks[1..]);
      assert checks == [checks[0]] + checks[1..];
    }
  }

  lemma PoppedContents(queue: seq<Check>, n: nat)
    requires n <= |queue|
    ensures multiset(queue) == multiset(queue[..|queue| - n]) + multiset(Popped(queue, n))
    ensures |Popped(queue, n)| == n
  {
    NewestFirstContents(queue[|queue| - n..]);
    assert queue == queue[..|queue| - n] + queue[|queue| - n..];
  }

  /* ---- Every step keeps the invariant ---- */

  // A critical section counts a thread in its new place and moves checks from the queue to it.
  lemma LockMovesCounts(s: State, t: nat, n: int)
    requires CanLock(s, t, n)
    ensures Decision(s, t, n).0.nTodo == s.sh.nTodo - Unreported(s.threads[t])
    ensures Decision(s, t, n).0.nIdle == s.sh.nIdle - Waiting(s.threads[t]) + Waiting(NextPc(s, t, n))
    ensures Decision(s, t, n).0.nTotal == s.sh.nTotal - InLoop(s.threads[t]) + InLoop(NextPc(s, t, n))
    ensures |s.sh.queue| == |Decision(s, t, n).0.queue| + Unreported(NextPc(s, t, n))
  {
    if s.sh.queue != [] {
      PoppedContents(s.sh.queue, n);
    }
  }

  // If b' leaves the queue q and enters the batches u, and b leaves the batches and joins r, the
  // total stays.
  lemma Rebalance(q: multiset<Check>, u: multiset<Check>, r: multiset<Check>,
                  q': multiset<Check>, u': multiset<Check>, b: multiset<Check>, b': multiset<Check>)
    requires q == q' + b' && u' + b == u + b'
    ensures q' + u' + (r + b) == q + u + r
  {
    assert q' + u' + (r + b) == q' + (u' + b) + r;
    assert q' + (u + b') + r == (q' + b') + u + r;
  }

  lemma TakesBatch(s: State, t: nat, n: int)
    requires CanLock(s, t, n) && s.sh.queue != []
    ensures NextPc(s, t, n) == Working(Popped(s.sh.queue, n), 0, Decision(s, t, n).0.allOk)
    ensures Decision(s, t, n).0.queue == s.sh.queue[..|s.sh.queue| - n]
  {}

  lemma TakesNothing(s: State, t: nat, n: int)
    requires CanLock(s, t, n) && s.sh.queue == []
    ensures NextPc(s, t, n) == Asleep || (NextPc(s, t, n) == Outside && t == 0)
    ensures Decision(s, t, n).0.queue == []
  {}

  lemma PoppedNothing(queue: seq<Check>)
    ensures Popped(queue, 0) == [] && queue[..|queue| - 0] == queue
  {
    assert queue[|queue| - 0..] == [];
  }

  lemma LockMovesBatch(s: State, t: nat, n: int) returns (k: nat)
    requires CanLock(s, t, n)
    ensures k <= |s.sh.queue| && (s.sh.queue != [] ==> k > 0)
    ensures Decision(s, t, n).0.queue == s.sh.queue[..|s.sh.queue| - k]
    ensures Batch(NextPc(s, t, n)) == Popped(s.sh.queue, k)
  {
    if s.sh.queue == [] {
      k := 0;
      TakesNothing(s, t, n);
      PoppedNothing(s.sh.queue);
    } else {
      k := n;
      TakesBatch(s, t, n);
    }
  }

  lemma LockMovesChecks(s: State, t: nat, n: int)
    requires CanLock(s, t, n)
    ensures multiset(s.sh.queue) == multiset(Decision(s, t, n).0.queue) + InFlight(NextPc(s, t, n))
  {
    var k := LockMovesBatch(s, t, n);
    PoppedContents(s.sh.queue, k);
  }

  lemma LockLeavesAllToRun(s: State, t: nat, n: int)
    requires CanLock(s, t, n)
    ensures Unrun(s.threads[t]) == multiset{} && Unrun(NextPc(s, t, n)) == InFlight(NextPc(s, t, n))
  {
    if s.sh.queue == [] {
      TakesNothing(s, t, n);
    } else {
      TakesBatch(s, t, n);
      FreshBatch(Popped(s.sh.queue, n), Decision(s, t, n).0.allOk);
    }
  }

  lemma FreshBatch(batch: seq<Check>, ok: bool)
    ensures Unrun(Working(batch, 0, ok)) == InFlight(Working(batch, 0, ok)) == multiset(batch)
  {
    assert batch[0..] == batch;
  }

  lemma LockThreads(s: State, t: nat, n: int)
    requires ThreadsOk(s) && CanLock(s, t, n)
    ensures ThreadsOk(Lock(s, t, n))
  {
    var pc', before := NextPc(s, t, n), AfterNotify(s, t);
    NextPcOk(s, t, n);
    ReplaceOk(s, s.(threads := before), 0);
    assert Lock(s, t, n).threads == before[t := pc'];
    ReplaceOk(s.(threads := before), Lock(s, t, n), t);
  }

  predicate PcOk(pc: Pc, t: nat) {
    match pc
    case Outside => t == 0
    case Working(batch, next, _) => batch != [] && next <= |batch|
    case Reporting(batch, _) => batch != []
    case _ => true
  }

  lemma NextPcOk(s: State, t: nat, n: int)
    requires CanLock(s, t, n)
    ensures PcOk(NextPc(s, t, n), t)
  {
    if s.sh.queue == [] {
      TakesNothing(s, t, n);
    } else {
      TakesBatch(s, t, n);
      PoppedContents(s.sh.queue, n);
    }
  }

  // Only one thread is somewhere else.
  lemma ReplaceOk(s: State, s': State, t: nat)
    requires ThreadsOk(s) && t < |s.threads| == |s'.threads| && s'.threads == s.threads[t := s'.threads[t]]
    requires PcOk(s'.threads[t], t)
    ensures ThreadsOk(s')
  {}

  lemma LockCounts(s: State, t: nat, n: int)
    requires CountsOk(s) && CanLock(s, t, n)
    ensures CountsOk(Lock(s, t, n))
  {
    LockMovesCounts(s, t, n);
    SumReplace(s, t, NextPc(s, t, n), Unreported);
    SumReplace(s, t, NextPc(s, t, n), Waiting);
    SumReplace(s, t, NextPc(s, t, n), InLoop);
  }

  lemma {:induction false} NoBatches(threads: seq<Pc>)
    requires forall t :: 0 <= t < |threads| ==> Batch(threads[t]) == []
    ensures Union(threads, InFlight) == Union(threads, Unrun) == multiset{}
  {
    if threads != [] {
      NoBatches(threads[1..]);
    }
  }

  // When Wait returns, nobody but the master held a batch.
  lemma QuietAtReturn(s: State, n: int, result: bool)
    requires ThreadsOk(s) && CountsOk(s) && WaitReturns(s, n, result)
    ensures s.sh.queue == []
    ensures forall t :: 1 <= t < |s.threads| ==> Batch(s.threads[t]) == []
    ensures Union(s.threads, InFlight) == multiset(Batch(s.threads[0]))
    ensures Union(s.threads, Unrun) == multiset{}
  {
    var others := s.threads[0 := Outside];
    SumUpdate(s.threads, 0, Outside, Unreported);
    SumZero(others, Unreported);
    forall t | 1 <= t < |s.threads|
      ensures Batch(s.threads[t]) == []
    {
      assert Unreported(others[t]) == 0;
    }
    NoBatches(others);
    UnionUpdate(s.threads, 0, Outside, InFlight);
    UnionUpdate(s.threads, 0, Outside, Unrun);
  }

  lemma ReturnHistory(s: State, n: int)
    requires ThreadsOk(s) && CountsOk(s) && CanLock(s, 0, n) && Decision(s, 0, n).1.Return?
    ensures Located(Lock(s, 0, n)) && Accounted(Lock(s, 0, n))
  {
    QuietAtReturn(s, n, Decision(s, 0, n).1.result);
    NoBatches(Lock(s, 0, n).threads);
  }

  lemma LockLocated(s: State, t: nat, n: int)
    requires Located(s) && CanLock(s, t, n) && !Decision(s, t, n).1.Return?
    ensures Located(Lock(s, t, n))
  {
    var pc, pc', s' := s.threads[t], NextPc(s, t, n), Lock(s, t, n);
    LockMovesChecks(s, t, n);
    UnionReplace(s, t, pc', InFlight);
    Rebalance(multiset(s.sh.queue), Union(s.threads, InFlight), s.history.reported,
              multiset(s'.sh.queue), Union(s'.threads, InFlight), InFlight(pc), InFlight(pc'));
  }

  lemma LockAccounted(s: State, t: nat, n: int)
    requires Accounted(s) && CanLock(s, t, n) && !Decision(s, t, n).1.Return?
    ensures Accounted(Lock(s, t, n))
  {
    var pc', s' := NextPc(s, t, n), Lock(s, t, n);
    LockMovesChecks(s, t, n);
    LockLeavesAllToRun(s, t, n);
    UnionReplace(s, t, pc', Unrun);
    var settled := s.history.ran + s.history.skipped;
    Rebalance(multiset(s.sh.queue), Union(s.threads, Unrun), settled,
              multiset(s'.sh.queue), Union(s'.threads, Unrun), multiset{}, Unrun(pc'));
    assert settled + multiset{} == settled;
  }

  lemma LockVerdict(s: State, t: nat, n: int)
    requires ThreadsOk(s) && CountsOk(s) && VerdictOk(s) && CanLock(s, t, n)
    ensures VerdictOk(Lock(s, t, n))
  {
    var s' := Lock(s, t, n);
    assert ThreadVerdictOk(s.threads[t], s.history.added);
    if Decision(s, t, n).1.Return? {
      QuietAtReturn(s, n, Decision(s, t, n).1.result);
    }
    forall u | 0 <= u < |s'.threads|
      ensures ThreadVerdictOk(s'.threads[u], s'.history.added)
    {
      assert ThreadVerdictOk(s.threads[u], s.history.added);
    }
  }

  lemma LockSleep(s: State, t: nat, n: int)
    requires ThreadsOk(s) && CountsOk(s) && SleepOk(s) && CanLock(s, t, n)
    ensures SleepOk(Lock(s, t, n))
  {
    LockCounts(s, t, n);
    SumZero(Lock(s, t, n).threads, Unreported);
  }

  lemma LockInv(s: State, t: nat, n: int)
    requires Inv(s) && CanLock(s, t, n)
    ensures Inv(Lock(s, t, n))
  {
    LockThreads(s, t, n);
    LockCounts(s, t, n);
    if Decision(s, t, n).1.Return? {
      ReturnHistory(s, n);
    } else {
      LockLocated(s, t, n);
      LockAccounted(s, t, n);
    }
    LockVerdict(s, t, n);
    LockSleep(s, t, n);
  }

  lemma {:induction false} UnionContains(threads: seq<Pc>, t: nat, f: Pc -> multiset<Check>)
    requires t < |threads|
    ensures f(threads[t]) <= Union(threads, f)
  {
    if t > 0 {
      UnionContains(threads[1..], t - 1, f);
    }
  }

  // Replacing thread t by one with the same shares leaves counters and locations alone.
  lemma MoveThread(s: State, s': State, t: nat)
    requires ThreadsOk(s) && CountsOk(s) && Located(s)
    requires t < |s.threads| == |s'.threads| && s' == s.(threads := s'.threads, history := s'.history)
    requires s'.threads == s.threads[t := s'.threads[t]]
    requires s'.history.added == s.history.added && s'.history.reported == s.history.reported
    requires Batch(s'.threads[t]) == Batch(s.threads[t])
    requires Waiting(s'.threads[t]) == Waiting(s.threads[t]) && InLoop(s'.threads[t]) == InLoop(s.threads[t])
    ensures CountsOk(s') && Located(s')
  {
    SumPointwise(s.threads, s'.threads, Unreported);
    SumPointwise(s.threads, s'.threads, Waiting);
    SumPointwise(s.threads, s'.threads, InLoop);
    UnionPointwise(s.threads, s'.threads, InFlight);
  }

  lemma RunAccounted(s: State, t: nat)
    requires ThreadsOk(s) && Accounted(s) && Enabled(s, StepRun(t))
    ensures Accounted(RunOne(s, t))
  {
    var pc, s' := s.threads[t], RunOne(s, t);
    var c := pc.batch[pc.next];
    UnionUpdate(s.threads, t, s'.threads[t], Unrun);
    assert pc.batch[pc.next..] == [c] + pc.batch[pc.next + 1..];
    assert Unrun(pc) == multiset{c} + Unrun(s'.threads[t]);
    SettleOne(Union(s.threads, Unrun), Union(s'.threads, Unrun), Unrun(s'.threads[t]), c,
              multiset(s.sh.queue), s.history.ran, s.history.skipped);
  }

  lemma SettleOne(u: multiset<Check>, u': multiset<Check>, rest: multiset<Check>, c: Check,
                  q: multiset<Check>, ran: multiset<Check>, skipped: multiset<Check>)
    requires u' + (multiset{c} + rest) == u + rest
    ensures q + u + (ran + skipped) == q + u' + ((ran + multiset{c}) + skipped)
                                    == q + u' + (ran + (skipped + multiset{c}))
  {
    assert u == u' + multiset{c} by {
      forall x
        ensures u[x] == (u' + multiset{c})[x]
      {
        assert (u' + (multiset{c} + rest))[x] == (u + rest)[x];
      }
    }
  }

  lemma RunOneVerdict(pc: Pc, added: multiset<Check>)
    requires pc.Working? && pc.next < |pc.batch| && ThreadVerdictOk(pc, added) && pc.batch[pc.next] in added
    ensures ThreadVerdictOk(Working(pc.batch, pc.next + 1, pc.ok && pc.batch[pc.next].ok), added)
  {
    assert pc.batch[..pc.next + 1] == pc.batch[..pc.next] + [pc.batch[pc.next]];
  }

  lemma RunVerdict(s: State, t: nat)
    requires ThreadsOk(s) && Located(s) && VerdictOk(s) && Enabled(s, StepRun(t))
    ensures VerdictOk(RunOne(s, t))
  {
    var pc, s' := s.threads[t], RunOne(s, t);
    assert ThreadVerdictOk(pc, s.history.added);
    UnionContains(s.threads, t, InFlight);
    assert pc.batch[pc.next] in InFlight(pc);
    RunOneVerdict(pc, s.history.added);
    forall u | 0 <= u < |s'.threads|
      ensures ThreadVerdictOk(s'.threads[u], s'.history.added)
    {
      assert ThreadVerdictOk(s.threads[u], s.history.added);
    }
  }

  lemma RunInv(s: State, t: nat)
    requires Inv(s) && Enabled(s, StepRun(t))
    ensures Inv(RunOne(s, t))
  {
    MoveShape(s, RunOne(s, t), t);
    MoveThread(s, RunOne(s, t), t);
    RunAccounted(s, t);
    RunVerdict(s, t);
  }

  lemma MoveSettled(s: State, s': State, t: nat)
    requires ThreadsOk(s) && Accounted(s) && VerdictOk(s)
    requires t < |s.threads| == |s'.threads| && s' == s.(threads := s'.threads)
    requires s'.threads == s.threads[t := s'.threads[t]]
    requires Unrun(s'.threads[t]) == Unrun(s.threads[t])
    requires ThreadVerdictOk(s'.threads[t], s.history.added)
    ensures Accounted(s') && VerdictOk(s')
  {
    UnionPointwise(s.threads, s'.threads, Unrun);
    forall u | 0 <= u < |s'.threads|
      ensures ThreadVerdictOk(s'.threads[u], s'.history.added)
    {
      assert ThreadVerdictOk(s.threads[u], s.history.added);
    }
  }

  // One thread goes on with what it has.
  lemma MoveShape(s: State, s': State, t: nat)
    requires ThreadsOk(s) && SleepOk(s) && t < |s.threads| == |s'.threads|
    requires s' == s.(threads := s'.threads, history := s'.history) && s'.threads == s.threads[t := s'.threads[t]]
    requires !s'.threads[t].Asleep? && PcOk(s'.threads[t], t)
    ensures ThreadsOk(s') && SleepOk(s')
  {
    ReplaceOk(s, s', t);
  }

  // Steps that only move one thread along.
  lemma WakeOrEnterInv(s: State, step: Step)
    requires Inv(s) && Enabled(s, step) && (step.StepWait? || step.StepSpurious?)
    ensures Inv(Apply(s, step))
  {
    var t := if step.StepWait? then 0 else step.t;
    MoveShape(s, Apply(s, step), t);
    MoveThread(s, Apply(s, step), t);
    MoveSettled(s, Apply(s, step), t);
  }

  lemma FinishedBatch(pc: Pc, added: multiset<Check>)
    requires pc.Working? && pc.next == |pc.batch| && ThreadVerdictOk(pc, added)
    ensures Unrun(pc) == multiset{} && ThreadVerdictOk(Reporting(pc.batch, pc.ok), added)
  {
    assert pc.batch[..pc.next] == pc.batch && pc.batch[pc.next..] == [];
  }

  lemma FinishMoves(s: State, t: nat)
    requires Inv(s) && Enabled(s, StepFinish(t))
    ensures CountsOk(Apply(s, StepFinish(t))) && Located(Apply(s, StepFinish(t)))
  {
    MoveThread(s, Apply(s, StepFinish(t)), t);
  }

  lemma FinishSettles(s: State, t: nat)
    requires Inv(s) && Enabled(s, StepFinish(t))
    ensures Accounted(Apply(s, StepFinish(t))) && VerdictOk(Apply(s, StepFinish(t)))
  {
    assert ThreadVerdictOk(s.threads[t], s.history.added);
    FinishedBatch(s.threads[t], s.history.added);
    MoveSettled(s, Apply(s, StepFinish(t)), t);
  }

  lemma FinishInv(s: State, t: nat)
    requires Inv(s) && Enabled(s, StepFinish(t))
    ensures Inv(Apply(s, StepFinish(t)))
  {
    MoveShape(s, Apply(s, StepFinish(t)), t);
    FinishMoves(s, t);
    FinishSettles(s, t);
  }

  lemma AddCounts(s: State, checks: seq<Check>, notified: set<nat>)
    requires CountsOk(s) && |s.threads| >= 1 && Enabled(s, StepAdd(checks, notified))
    ensures CountsOk(Apply(s, StepAdd(checks, notified)))
  {
    SumWake(s.threads, notified, Unreported);
    SumWake(s.threads, notified, Waiting);
    SumWake(s.threads, notified, InLoop);
  }

  lemma AddHistory(s: State, checks: seq<Check>, notified: set<nat>)
    requires Located(s) && Accounted(s) && |s.threads| >= 1 && Enabled(s, StepAdd(checks, notified))
    ensures Located(Apply(s, StepAdd(checks, notified))) && Accounted(Apply(s, StepAdd(checks, notified)))
  {
    var threads := Wake(s.threads, notified);
    UnionPointwise(s.threads, threads, InFlight);
    UnionPointwise(s.threads, threads, Unrun);
    assert multiset(s.sh.queue + checks) == multiset(s.sh.queue) + multiset(checks);
  }

  lemma AddVerdict(s: State, checks: seq<Check>, notified: set<nat>)
    requires VerdictOk(s) && |s.threads| >= 1 && Enabled(s, StepAdd(checks, notified))
    ensures VerdictOk(Apply(s, StepAdd(checks, notified)))
  {
    var s' := Apply(s, StepAdd(checks, notified));
    assert s.history.added <= s'.history.added;
    forall u | 0 <= u < |s'.threads|
      ensures ThreadVerdictOk(s'.threads[u], s'.history.added)
    {
      assert ThreadVerdictOk(s.threads[u], s.history.added);
    }
  }

  lemma AddInv(s: State, checks: seq<Check>, notified: set<nat>)
    requires Inv(s) && Enabled(s, StepAdd(checks, notified))
    ensures Inv(Apply(s, StepAdd(checks, notified)))
  {
    AddCounts(s, checks, notified);
    AddHistory(s, checks, notified);
    AddVerdict(s, checks, notified);
  }

  lemma StepInv(s: State, step: Step)
    requires Inv(s) && Enabled(s, step)
    ensures Inv(Apply(s, step))
  {
    match step
    case StepAdd(checks, notified) => AddInv(s, checks, notified);
    case StepLock(t, n) => LockInv(s, t, n);
    case StepRun(t) => RunInv(s, t);
    case StepFinish(t) => FinishInv(s, t);
    case _ => WakeOrEnterInv(s, step);
  }

  // Once a round has failed, the checks of every batch taken later are skipped.
  lemma FailureSkips(s: State, t: nat, n: int)
    requires CanLock(s, t, n) && (!s.sh.allOk || (s.threads[t].Reporting? && !s.threads[t].ok))
    ensures s.sh.queue != [] ==>
      var pc := Lock(s, t, n).threads[t];
      && pc.Working? && !pc.ok && pc.batch != []
      && RunOne(Lock(s, t, n), t).history == s.history.(
           skipped := s.history.skipped + multiset{pc.batch[0]},
           reported := s.history.reported + multiset(Batch(s.threads[t])))
      && !RunOne(Lock(s, t, n), t).threads[t].ok
  {
    if s.sh.queue != [] {
      TakesBatch(s, t, n);
      PoppedContents(s.sh.queue, n);
    }
  }

  /* ---- Adding checks wakes workers ---- */

  ghost function Sleepers(s: State): (r: set<int>) {
    set t | 1 <= t < |s.threads| && s.threads[t].Asleep?
  }

  // Nobody sleeps on when two checks or more are added. For one check one sleeper is woken, if any.
  lemma AddWakes(s: State, checks: seq<Check>, notified: set<nat>)
    requires |s.threads| >= 1 && Enabled(s, StepAdd(checks, notified))
    ensures var s' := Apply(s, StepAdd(checks, notified));
      && Sleepers(s') <= Sleepers(s)
      && |Sleepers(s')| == (if |checks| == 0 || Sleepers(s) == {} then |Sleepers(s)|
                            else if |checks| == 1 then |Sleepers(s)| - 1
                            else 0)
      && |s'.threads| == |s.threads|
      && forall t :: 0 <= t < |s.threads| ==>
           s'.threads[t] == if t in Sleepers(s) && t !in Sleepers(s') then Woken else s.threads[t]
  {
    var s' := Apply(s, StepAdd(checks, notified));
    var woken: set<int> := set t | t in notified;
    assert Sleepers(s') == Sleepers(s) - woken;
    if |checks| == 0 {
      assert woken == {};
    } else if |checks| == 1 && Sleepers(s) != {} {
      assert notified != {};
      var t :| t in notified;
      OneOnly(notified, t);
      assert woken == {t};
    } else if |checks| >= 2 {
      assert Sleepers(s') == {};
    }
  }

  lemma OneOnly(notified: set<nat>, t: nat)
    requires t in notified && |notified| <= 1
    ensures notified == {t}
  {
    assert |notified - {t}| == 0;
  }

  // While there is a worker at all, checks are never queued with all workers asleep.
  ghost predicate WorkerAwake(s: State) {
    s.sh.queue != [] && |s.threads| >= 2 ==> exists t :: IsWorker(s, t) && !s.threads[t].Asleep?
  }

  lemma AddKeepsAwake(s: State, checks: seq<Check>, notified: set<nat>)
    requires |s.threads| >= 1 && WorkerAwake(s) && Enabled(s, StepAdd(checks, notified))
    ensures WorkerAwake(Apply(s, StepAdd(checks, notified)))
  {
    var s' := Apply(s, StepAdd(checks, notified));
    AddWakes(s, checks, notified);
    if |s.threads| >= 2 {
      assert IsWorker(s, 1) && IsWorker(s', 1);
      if checks != [] && s'.threads[1].Asleep? {
        assert 1 in Sleepers(s) && 1 in Sleepers(s') && |checks| == 1;
        var t :| t in Sleepers(s) && t !in Sleepers(s');
        assert IsWorker(s', t) && !s'.threads[t].Asleep?;
      } else if checks == [] && s.sh.queue != [] {
        var t :| IsWorker(s, t) && !s.threads[t].Asleep?;
        assert IsWorker(s', t) && !s'.threads[t].Asleep?;
      }
    }
  }

  lemma LockKeepsAwake(s: State, t: nat, n: int)
    requires WorkerAwake(s) && CanLock(s, t, n)
    ensures WorkerAwake(Lock(s, t, n))
  {
    var s' := Lock(s, t, n);
    if s.sh.queue == [] {
      TakesNothing(s, t, n);
    } else if |s.threads| >= 2 {
      TakesBatch(s, t, n);
      var u :| IsWorker(s, u) && !s.threads[u].Asleep?;
      assert IsWorker(s', u) && !s'.threads[u].Asleep?;
    }
  }

  lemma StepKeepsAwake(s: State, step: Step)
    requires |s.threads| >= 1 && WorkerAwake(s) && Enabled(s, step)
    ensures WorkerAwake(Apply(s, step))
  {
    match step
    case StepAdd(checks, notified) => AddKeepsAwake(s, checks, notified);
    case StepLock(t, n) => LockKeepsAwake(s, t, n);
    case _ =>
      if s.sh.queue != [] && |s.threads| >= 2 {
        var t :| IsWorker(s, t) && !s.threads[t].Asleep?;
        assert IsWorker(Apply(s, step), t) && !Apply(s, step).threads[t].Asleep?;
      }
  }

  /* ---- Runs ---- */

  ghost predicate IsRun(s: State, steps: seq<Step>)
    decreases |steps|
  {
    steps == [] || (|s.threads| >= 1 && Enabled(s, steps[0]) && IsRun(Apply(s, steps[0]), steps[1..]))
  }

  ghost function After(s: State, steps: seq<Step>): (r: State)
    requires IsRun(s, steps)
    decreases |steps|
  {
    if steps == [] then s else After(Apply(s, steps[0]), steps[1..])
  }

  lemma {:induction false} RunKeepsInv(s: State, steps: seq<Step>)
    requires Inv(s) && IsRun(s, steps)
    ensures Inv(After(s, steps))
    decreases |steps|
  {
    if steps != [] {
      StepInv(s, steps[0]);
      RunKeepsInv(Apply(s, steps[0]), steps[1..]);
    }
  }

  lemma {:induction false} RunKeepsAwake(s: State, steps: seq<Step>)
    requires WorkerAwake(s) && IsRun(s, steps)
    ensures WorkerAwake(After(s, steps))
    decreases |steps|
  {
    if steps != [] {
      StepKeepsAwake(s, steps[0]);
      RunKeepsAwake(Apply(s, steps[0]), steps[1..]);
    }
  }

  // In no reachable state is a check queued while every worker sleeps.
  lemma QueuedChecksHaveWorkers(s0: State, steps: seq<Step>)
    requires Init(s0) && IsRun(s0, steps)
    ensures var s := After(s0, steps);
      s.sh.queue != [] && |s.threads| >= 2 ==> exists t :: IsWorker(s, t) && !s.threads[t].Asleep?
  {
    RunKeepsAwake(s0, steps);
  }

  // The verdict: on any interleaving, Wait returns true exactly when every check added in its round
  // is good, and then every one was evaluated, once. What it leaves behind is a fresh round.
  lemma WaitCorrect(s0: State, steps: seq<Step>, n: int, result: bool)
    requires Init(s0) && IsRun(s0, steps) && WaitReturns(After(s0, steps), n, result)
    ensures var s := After(s0, steps);
      && (result <==> AllGood(s.history.added))
      && (result ==> s.history.ran == s.history.added)
      && s.history.ran + s.history.skipped == s.history.added
  {
    InitInv(s0);
    RunKeepsInv(s0, steps);
    var s := After(s0, steps);
    QuietAtReturn(s, n, result);
    var pc := s.threads[0];
    assert ThreadVerdictOk(pc, s.history.added);
    assert s.history.added == s.history.reported + multiset(Batch(pc));
    assert s.history.ran + s.history.skipped == s.history.added;
  }

  // The counters say idle exactly when nothing is queued, no thread has a batch, and every check
  // of the round was good.
  lemma IdleMeaning(s: State)
    requires Inv(s)
    ensures Idle(s.sh) <==>
      && s.sh.queue == []
      && (forall t :: 0 <= t < |s.threads| ==> !s.threads[t].Working? && !s.threads[t].Reporting?)
      && AllGood(s.history.added)
  {
    SumZero(s.threads, Unreported);
    if s.sh.nTodo == 0 {
      forall t | 0 <= t < |s.threads|
        ensures Batch(s.threads[t]) == [] && InLoop(s.threads[t]) == Waiting(s.threads[t])
      {
        assert Unreported(s.threads[t]) == 0;
      }
    }
    var threads := s.threads;
    if s.sh.queue == [] && forall t :: 0 <= t < |threads| ==> !threads[t].Working? && !threads[t].Reporting? {
      NoneLeft(s.threads);
      NoBatches(s.threads);
      assert s.history.added == s.history.reported;
    }
  }

  // Between rounds nothing of the previous one is left, so the assertion with which a
  // CCheckQueueControl takes over the queue never fails.
  lemma IdleBetweenRounds(s0: State, steps: seq<Step>)
    requires Init(s0) && IsRun(s0, steps)
    requires After(s0, steps).threads != [] && After(s0, steps).threads[0].Outside?
    requires After(s0, steps).history.added == multiset{}
    ensures Idle(After(s0, steps).sh)
  {
    InitInv(s0);
    RunKeepsInv(s0, steps);
    var s := After(s0, steps);
    assert multiset(s.sh.queue) == multiset{} && Union(s.threads, InFlight) == multiset{};
    forall t | 0 <= t < |s.threads|
      ensures Batch(s.threads[t]) == [] && InLoop(s.threads[t]) == Waiting(s.threads[t])
    {
      UnionContains(s.threads, t, InFlight);
      NonEmpty(Batch(s.threads[t]));
    }
    NonEmpty(s.sh.queue);
    NoneLeft(s.threads);
  }

  lemma NonEmpty(b: seq<Check>)
    ensures b != [] ==> multiset(b) != multiset{}
  {
    if b != [] {
      assert b[0] in multiset(b);
    }
  }

  lemma {:induction false} NoneLeft(threads: seq<Pc>)
    requires forall t :: 0 <= t < |threads| ==> Batch(threads[t]) == [] && InLoop(threads[t]) == Waiting(threads[t])
    ensures Sum(threads, Unreported) == 0 && Sum(threads, InLoop) == Sum(threads, Waiting)
  {
    if threads != [] {
      NoneLeft(threads[1..]);
    }
  }

  /* ---- Wait never gets stuck ---- */

  ghost predicate MasterInLoop(s: State) {
    |s.threads| >= 1 && !s.threads[0].Outside?
  }

  // A step of some thread that is not a spurious wake-up.
  predicate Proper(step: Step) {
    step.StepLock? || step.StepRun? || step.StepFinish?
  }

  // Until Wait returns, some thread can always make a proper step: if the master sleeps, a worker
  // holds a batch it has not reported, and the last report wakes the master.
  lemma NoDeadlock(s: State) returns (step: Step)
    requires Inv(s) && MasterInLoop(s)
    ensures Proper(step) && Enabled(s, step)
  {
    CountersNonNegative(s);
    var t := 0;
    if s.threads[0].Asleep? {
      t := SumPositive(s.threads, Unreported);
    }
    var pc := s.threads[t];
    if pc.Working? {
      step := if pc.next < |pc.batch| then StepRun(t) else StepFinish(t);
    } else {
      BatchSizeBounds(Arrive(s.sh, pc), s.maxBatch);
      step := StepLock(t, BatchSize(Arrive(s.sh, pc), s.maxBatch));
    }
  }

  lemma LastReportWakesMaster(s: State, t: nat, n: int)
    requires Inv(s) && IsWorker(s, t) && CanLock(s, t, n) && s.threads[0].Asleep?
    ensures Lock(s, t, n).threads[0].Woken? <==> s.sh.nTodo == Unreported(s.threads[t])
    ensures Lock(s, t, n).threads[0].Woken? ==> exists m, result :: WaitReturns(Lock(s, t, n), m, result)
  {
    LockInv(s, t, n);
    var s' := Lock(s, t, n);
    LockMovesCounts(s, t, n);
    if s'.threads[0].Woken? {
      assert Decision(s', 0, 0).1 == Return(s'.sh.allOk);
      assert WaitReturns(s', 0, s'.sh.allOk);
    }
  }

  // Work left: queued checks, unfinished batches, and threads that still have to take the mutex.
  function Weight(pc: Pc): (r: int) {
    match pc
    case Working(batch, next, _) => 3 + |batch| - next
    case Reporting(_, _) => 2
    case Entering => 1
    case Woken => 1
    case _ => 0
  }

  ghost function WorkLeft(s: State): (r: int) {
    4 * |s.sh.queue| + Sum(s.threads, Weight)
  }

  lemma LockDecreases(s: State, t: nat, n: int)
    requires CanLock(s, t, n)
    ensures WorkLeft(Lock(s, t, n)) < WorkLeft(s)
  {
    var s' := Lock(s, t, n);
    LockMovesCounts(s, t, n);
    SumUpdate(s.threads, 0, Woken, Weight);
    SumUpdate(AfterNotify(s, t), t, NextPc(s, t, n), Weight);
  }

  lemma ProperStepDecreases(s: State, step: Step)
    requires Inv(s) && Enabled(s, step) && Proper(step)
    ensures WorkLeft(Apply(s, step)) < WorkLeft(s)
  {
    if step.StepLock? {
      LockDecreases(s, step.t, step.n);
    } else {
      SumUpdate(s.threads, step.t, Apply(s, step).threads[step.t], Weight);
    }
  }

  lemma {:induction false} WeightsNonNegative(s: State, threads: seq<Pc>)
    requires forall t :: 0 <= t < |threads| && threads[t].Working? ==> threads[t].next <= |threads[t].batch|
    ensures Sum(threads, Weight) >= 0
  {
    if threads != [] {
      WeightsNonNegative(s, threads[1..]);
    }
  }

  ghost function Count(steps: seq<Step>, proper: bool): (r: nat) {
    if steps == [] then 0 else (if Proper(steps[0]) == proper then 1 else 0) + Count(steps[1..], proper)
  }

  // The master stays inside Wait throughout.
  ghost predicate WithinWait(s: State, steps: seq<Step>)
    requires IsRun(s, steps)
    decreases |steps|
  {
    MasterInLoop(s) && (steps == [] || WithinWait(Apply(s, steps[0]), steps[1..]))
  }

  // A bound on every execution inside one Wait: proper steps are at most the work present at its
  // start plus one for each spurious wake-up. With NoDeadlock: Wait returns.
  lemma {:induction false} WaitIsBounded(s: State, steps: seq<Step>)
    requires Inv(s) && IsRun(s, steps) && WithinWait(s, steps)
    ensures Count(steps, true) <= WorkLeft(s) + Count(steps, false)
    decreases |steps|
  {
    if steps == [] {
      WeightsNonNegative(s, s.threads);
    } else {
      var step, s' := steps[0], Apply(s, steps[0]);
      StepInv(s, step);
      WaitIsBounded(s', steps[1..]);
      StepWorkLeft(s, step);
    }
  }

  lemma StepWorkLeft(s: State, step: Step)
    requires Inv(s) && Enabled(s, step) && MasterInLoop(s)
    ensures WorkLeft(Apply(s, step)) <= WorkLeft(s) + if Proper(step) then -1 else 1
  {
    if Proper(step) {
      ProperStepDecreases(s, step);
    } else {
      SumUpdate(s.threads, step.t, Woken, Weight);
    }
  }
}
