/**
  The thread pool's workers under every interleaving (server/threadpool.c).

  A step is one critical section, one wake-up or the end of one job.  The queue is the abstract content of
  JobQueue.Queue.  `accepted`, `started` and `finished` record jobs in the order of those events;
  `atShutdown` and `lastExit` record how many jobs had been accepted when shutdown began and when a worker
  last left.
 */
module ThreadPool {
  import Runs
  import JobQueue

  type Job = int

  datatype Worker =
    | Blocked              // in pthread_cond_wait
    | Runnable             // about to hold the lock and look at the queue
    | Executing(job: Job)  // outside the lock
    | Exited

  datatype Pool = Pool(
    cap: nat, workers: seq<Worker>, queue: seq<Job>, shuttingDown: bool,
    accepted: seq<Job>, started: seq<Job>, finished: multiset<Job>,
    atShutdown: nat, lastExit: nat)

  datatype Step =
    | Submit(job: Job, woken: nat)  // threadpool_submit; the signal wakes `woken` if anybody is blocked
    | Look(worker: nat)             // a runnable worker holds the lock: wait, exit or take a job
    | Finish(worker: nat)           // a job returns
    | Spurious(worker: nat)         // pthread_cond_wait returns for no reason
    | Shutdown                      // threadpool_destroy: set the flag and broadcast

  function Start(n: nat, cap: nat): Pool {
    Pool(cap, seq(n, _ => Runnable), [], false, [], [], multiset{}, 0, 0)
  }

  function WakeAll(ws: seq<Worker>): seq<Worker> {
    seq(|ws|, i requires 0 <= i < |ws| => if ws[i] == Blocked then Runnable else ws[i])
  }

  predicate SomeBlocked(ws: seq<Worker>) {
    exists i :: 0 <= i < |ws| && ws[i] == Blocked
  }

  predicate Enabled(p: Pool, step: Step) {
    match step
    case Submit(_, k) => SomeBlocked(p.workers) ==> k < |p.workers| && p.workers[k] == Blocked
    case Look(k) => k < |p.workers| && p.workers[k] == Runnable
    case Finish(k) => k < |p.workers| && p.workers[k].Executing?
    case Spurious(k) => k < |p.workers| && p.workers[k] == Blocked
    case Shutdown => !p.shuttingDown
  }

  function Apply(p: Pool, step: Step): Pool {
    match step
    case Submit(job, k) =>
      if |p.queue| >= p.cap then p
      else
        p.(queue := p.queue + [job], accepted := p.accepted + [job],
           workers := if k < |p.workers| && p.workers[k] == Blocked then p.workers[k := Runnable] else p.workers)
    case Look(k) =>
      if k >= |p.workers| then p
      else if p.queue == [] then
        if p.shuttingDown then p.(workers := p.workers[k := Exited], lastExit := |p.accepted|)
        else p.(workers := p.workers[k := Blocked])
      else
        p.(workers := p.workers[k := Executing(p.queue[0])], queue := p.queue[1..], started := p.started + [p.queue[0]])
    case Finish(k) =>
      if k >= |p.workers| || !p.workers[k].Executing? then p
      else p.(workers := p.workers[k := Runnable], finished := p.finished + multiset{p.workers[k].job})
    case Spurious(k) =>
      if k >= |p.workers| then p else p.(workers := p.workers[k := Runnable])
    case Shutdown =>
      p.(shuttingDown := true, workers := WakeAll(p.workers), atShutdown := |p.accepted|)
  }

  function After(p: Pool, steps: seq<Step>): Pool {
    Runs.After(Apply, p, steps)
  }

  predicate IsRun(p: Pool, steps: seq<Step>) {
    Runs.IsRun(Apply, Enabled, p, steps)
  }

  // ---------------------------------------------------------------- sums over workers

  function Total(weight: Worker -> nat, ws: seq<Worker>): nat {
    if ws == [] then 0 else weight(ws[0]) + Total(weight, ws[1..])
  }

  lemma {:induction false} TotalUpdate(weight: Worker -> nat, ws: seq<Worker>, k: nat, w: Worker)
    requires k < |ws|
    ensures Total(weight, ws[k := w]) + weight(ws[k]) == Total(weight, ws) + weight(w)
  {
    if k == 0 {
      assert ws[k := w][1..] == ws[1..];
    } else {
      assert ws[k := w][1..] == ws[1..][k - 1 := w];
      TotalUpdate(weight, ws[1..], k - 1, w);
    }
  }

  function IsRunnable(w: Worker): nat {
    if w == Runnable then 1 else 0
  }

  function RunnableCount(ws: seq<Worker>): nat {
    Total(IsRunnable, ws)
  }

  /** 1 for a worker executing this job. */
  function Holds(job: Job): Worker -> nat {
    (w: Worker) => if w == Executing(job) then 1 else 0
  }

  lemma {:induction false} TotalWakeAll(weight: Worker -> nat, ws: seq<Worker>)
    requires weight(Blocked) == weight(Runnable)
    ensures Total(weight, WakeAll(ws)) == Total(weight, ws)
  {
    if ws != [] {
      assert WakeAll(ws)[1..] == WakeAll(ws[1..]);
      TotalWakeAll(weight, ws[1..]);
    }
  }

  lemma {:induction false} TotalZero(weight: Worker -> nat, ws: seq<Worker>)
    requires forall i :: 0 <= i < |ws| ==> weight(ws[i]) == 0
    ensures Total(weight, ws) == 0
  {
    if ws != [] {
      TotalZero(weight, ws[1..]);
    }
  }

  // ---------------------------------------------------------------- invariant

  predicate AllExited(ws: seq<Worker>) {
    forall i :: 0 <= i < |ws| ==> ws[i] == Exited
  }

  /** Nobody sleeps on work: if a worker is blocked, every queued job has a runnable worker coming for it. */
  predicate NoLostWakeup(p: Pool) {
    SomeBlocked(p.workers) ==> !p.shuttingDown && |p.queue| <= RunnableCount(p.workers)
  }

  /** Started jobs, then queued jobs, are the accepted jobs in order. */
  predicate InOrder(p: Pool) {
    |p.queue| <= p.cap && p.accepted == p.started + p.queue
  }

  /** Every started job has finished or is in the hands of one worker. */
  ghost predicate OnceEach(p: Pool) {
    forall job :: multiset(p.started)[job] == p.finished[job] + Total(Holds(job), p.workers)
  }

  /** Workers leave only during shutdown, and then the queue is empty. */
  predicate LeaveEmpty(p: Pool) {
    && ((exists i :: 0 <= i < |p.workers| && p.workers[i] == Exited) ==> p.shuttingDown && p.lastExit >= p.atShutdown)
    && p.lastExit <= |p.accepted|
    && p.atShutdown <= |p.accepted|
    && (p.workers != [] && AllExited(p.workers) ==> |p.started| == p.lastExit)
  }

  ghost predicate Inv(p: Pool) {
    InOrder(p) && NoLostWakeup(p) && OnceEach(p) && LeaveEmpty(p)
  }

  lemma InOrderStep(p: Pool, step: Step)
    requires InOrder(p) && Enabled(p, step)
    ensures InOrder(Apply(p, step))
  {
    match step
    case Submit(job, _) =>
      assert p.started + p.queue + [job] == p.started + (p.queue + [job]);
    case Look(_) =>
      if p.queue != [] {
        assert p.started + p.queue == p.started + [p.queue[0]] + p.queue[1..];
      }
    case _ =>
  }

  lemma NoLostWakeupStep(p: Pool, step: Step)
    requires NoLostWakeup(p) && Enabled(p, step)
    ensures NoLostWakeup(Apply(p, step))
  {
    var q := Apply(p, step);
    if q != p && !step.Shutdown? {
      var k := if step.Submit? then step.woken else step.worker;
      if k < |p.workers| {
        TotalUpdate(IsRunnable, p.workers, k, q.workers[k]);
        assert q.workers == p.workers[k := q.workers[k]];
        assert forall i :: 0 <= i < |p.workers| && i != k ==> q.workers[i] == p.workers[i];
      }
    }
  }

  /** Replacing one worker moves the count of a job by what the two hold of it. */
  lemma {:induction false} HoldsUpdate(job: Job, ws: seq<Worker>, k: nat, w: Worker)
    requires k < |ws|
    ensures Total(Holds(job), ws[k := w])
            == Total(Holds(job), ws) + (if w == Executing(job) then 1 else 0) - if ws[k] == Executing(job) then 1 else 0
  {
    TotalUpdate(Holds(job), ws, k, w);
  }

  /** Started and not finished, the job is in hand: the balance of one job. */
  function Balance(p: Pool, job: Job): int {
    multiset(p.started)[job] - p.finished[job] - Total(Holds(job), p.workers)
  }

  lemma {:induction false} LookBalances(p: Pool, k: nat, job: Job)
    requires Enabled(p, Look(k))
    ensures Balance(Apply(p, Look(k)), job) == Balance(p, job)
  {
    HoldsUpdate(job, p.workers, k, Apply(p, Look(k)).workers[k]);
  }

  lemma {:induction false} FinishBalances(p: Pool, k: nat, job: Job)
    requires Enabled(p, Finish(k))
    ensures Balance(Apply(p, Finish(k)), job) == Balance(p, job)
  {
    HoldsUpdate(job, p.workers, k, Runnable);
  }

  lemma {:induction false} OnceStep(p: Pool, step: Step, job: Job)
    requires Enabled(p, step)
    ensures Balance(Apply(p, step), job) == Balance(p, job)
  {
    match step
    case Submit(_, k) =>
      if k < |p.workers| {
        HoldsUpdate(job, p.workers, k, Runnable);
      }
    case Look(k) => LookBalances(p, k, job);
    case Finish(k) => FinishBalances(p, k, job);
    case Spurious(k) => HoldsUpdate(job, p.workers, k, Runnable);
    case Shutdown => TotalWakeAll(Holds(job), p.workers);
  }

  lemma {:induction false} OnceEachStep(p: Pool, step: Step)
    requires OnceEach(p) && Enabled(p, step)
    ensures OnceEach(Apply(p, step))
  {
    var q := Apply(p, step);
    forall job
      ensures multiset(q.started)[job] == q.finished[job] + Total(Holds(job), q.workers)
    {
      OnceStep(p, step, job);
      assert Balance(p, job) == 0;
    }
  }

  lemma LeaveEmptyStep(p: Pool, step: Step)
    requires LeaveEmpty(p) && InOrder(p) && NoLostWakeup(p) && Enabled(p, step)
    ensures LeaveEmpty(Apply(p, step))
  {
    var q := Apply(p, step);
    if step.Shutdown? {
      assert p.workers != [] ==> p.workers[0] != Exited && q.workers[0] != Exited;
    } else {
      var k := if step.Submit? then step.woken else step.worker;
      if k < |p.workers| {
        assert forall i :: 0 <= i < |p.workers| && i != k ==> q.workers[i] == p.workers[i];
        assert AllExited(q.workers) ==> q.workers[k] == Exited;
      }
    }
  }

  lemma InvAlways(n: nat, cap: nat, steps: seq<Step>)
    requires IsRun(Start(n, cap), steps)
    ensures Inv(After(Start(n, cap), steps))
  {
    forall job ensures Total(Holds(job), Start(n, cap).workers) == 0 {
      TotalZero(Holds(job), Start(n, cap).workers);
    }
    forall p, step | Inv(p) && Enabled(p, step)
      ensures Inv(Apply(p, step))
    {
      InOrderStep(p, step);
      NoLostWakeupStep(p, step);
      OnceEachStep(p, step);
      LeaveEmptyStep(p, step);
    }
    Runs.Always(Apply, Enabled, Inv, Start(n, cap), steps);
  }

  // ---------------------------------------------------------------- theorems

  /** In every reachable state, a blocked worker means enough runnable ones, so work never waits for sleepers only. */
  lemma WorkNeverSleeps(n: nat, cap: nat, steps: seq<Step>)
    requires IsRun(Start(n, cap), steps)
    ensures var p := After(Start(n, cap), steps);
            && NoLostWakeup(p)
            && (p.queue != [] && !AllExited(p.workers) ==>
                  exists i :: 0 <= i < |p.workers| && (p.workers[i] == Runnable || p.workers[i].Executing?))
  {
    InvAlways(n, cap, steps);
    var p := After(Start(n, cap), steps);
    if p.queue != [] && !AllExited(p.workers) {
      var i :| 0 <= i < |p.workers| && p.workers[i] != Exited;
      if p.workers[i] == Blocked {
        RunnableExists(p.workers);
      }
    }
  }

  lemma {:induction false} RunnableExists(ws: seq<Worker>)
    requires RunnableCount(ws) > 0
    ensures exists i :: 0 <= i < |ws| && ws[i] == Runnable
  {
    if ws[0] != Runnable {
      RunnableExists(ws[1..]);
      var i :| 0 <= i < |ws[1..]| && ws[1..][i] == Runnable;
      assert ws[i + 1] == Runnable;
    }
  }

  /** In every reachable state, jobs have started in the order they were accepted, each once. */
  lemma FirstInFirstOut(n: nat, cap: nat, steps: seq<Step>)
    requires IsRun(Start(n, cap), steps)
    ensures var p := After(Start(n, cap), steps);
            && |p.queue| <= cap
            && p.accepted == p.started + p.queue
            && (forall job :: multiset(p.started)[job] == p.finished[job] + Total(Holds(job), p.workers))
  {
    InvAlways(n, cap, steps);
    CapAlways(n, cap, steps);
  }

  lemma CapAlways(n: nat, cap: nat, steps: seq<Step>)
    requires IsRun(Start(n, cap), steps)
    ensures After(Start(n, cap), steps).cap == cap && |After(Start(n, cap), steps).workers| == n
  {
    Runs.Always(Apply, Enabled, (p: Pool) => p.cap == cap && |p.workers| == n, Start(n, cap), steps);
  }

  /**
    When destroy's joins are done, exactly the jobs accepted after the last worker left are dropped; so every
    accepted job has run if and only if none was accepted after that, in particular if none was after shutdown began.
   */
  lemma WhatDestroyDrops(n: nat, cap: nat, steps: seq<Step>)
    requires n > 0 && IsRun(Start(n, cap), steps)
    requires AllExited(After(Start(n, cap), steps).workers)
    ensures var p := After(Start(n, cap), steps);
            && p.lastExit <= |p.accepted|
            && p.queue == p.accepted[p.lastExit..]
            && p.finished == multiset(p.accepted[..p.lastExit])
            && (p.finished == multiset(p.accepted) <==> p.lastExit == |p.accepted|)
            && (|p.accepted| == p.atShutdown ==> p.lastExit == |p.accepted|)
  {
    InvAlways(n, cap, steps);
    CapAlways(n, cap, steps);
    var p := After(Start(n, cap), steps);
    assert p.workers[0] == Exited;
    assert p.accepted[..p.lastExit] == p.started && p.accepted[p.lastExit..] == p.queue;
    forall job ensures multiset(p.started)[job] == p.finished[job] {
      TotalZero(Holds(job), p.workers);
    }
    assert p.finished == multiset(p.started);
    assert multiset(p.accepted) == multiset(p.started) + multiset(p.queue);
    assert |multiset(p.accepted)| == |p.accepted| && |multiset(p.started)| == |p.started|;
    assert p.accepted[..|p.accepted|] == p.accepted;
  }

  /** Dropping does happen: a job accepted after the only worker has left is never run. */
  lemma LateSubmitIsDropped(job: Job)
    ensures var steps := [Shutdown, Look(0), Submit(job, 0)];
            && IsRun(Start(1, 1), steps)
            && var p := After(Start(1, 1), steps);
               AllExited(p.workers) && p.accepted == [job] && p.finished == multiset{}
  {
    var p0 := Start(1, 1);
    var p1 := Apply(p0, Shutdown);
    var p2 := Apply(p1, Look(0));
    Runs.Extend(Apply, Enabled, p0, [], Shutdown);
    assert [] + [Shutdown] == [Shutdown];
    Runs.Extend(Apply, Enabled, p0, [Shutdown], Look(0));
    assert [Shutdown] + [Look(0)] == [Shutdown, Look(0)];
    Runs.Extend(Apply, Enabled, p0, [Shutdown, Look(0)], Submit(job, 0));
    assert [Shutdown, Look(0)] + [Submit(job, 0)] == [Shutdown, Look(0), Submit(job, 0)];
    assert p2.workers[0] == Exited;
  }

  // ---------------------------------------------------------------- the drain ends

  function Effort(w: Worker): nat {
    match w
    case Runnable => 1
    case Executing(_) => 2
    case _ => 0
  }

  /** An upper bound on the worker steps left once shutdown has begun. */
  function Remaining(p: Pool): nat {
    2 * |p.queue| + Total(Effort, p.workers)
  }

  predicate WorkerStep(step: Step) {
    step.Look? || step.Finish?
  }

  /** During shutdown every worker step brings the end one step nearer. */
  lemma DrainStep(p: Pool, step: Step)
    requires Inv(p) && p.shuttingDown && Enabled(p, step) && WorkerStep(step)
    ensures var q := Apply(p, step); Remaining(q) == Remaining(p) - 1 && q.shuttingDown && Inv(q)
  {
    var q := Apply(p, step);
    TotalUpdate(Effort, p.workers, step.worker, q.workers[step.worker]);
    InOrderStep(p, step);
    NoLostWakeupStep(p, step);
    OnceEachStep(p, step);
    LeaveEmptyStep(p, step);
  }

  /** So the worker steps left are bounded, and there is always one to take until all workers have left. */
  lemma {:induction false} DrainEnds(p: Pool, steps: seq<Step>)
    requires Inv(p) && p.shuttingDown && IsRun(p, steps) && forall s :: s in steps ==> WorkerStep(s)
    ensures var q := After(p, steps);
            && |steps| + Remaining(q) == Remaining(p)
            && Inv(q) && q.shuttingDown
            && (AllExited(q.workers) || exists s :: WorkerStep(s) && Enabled(q, s))
  {
    if steps != [] {
      var before := steps[..|steps| - 1];
      assert forall s :: s in before ==> s in steps;
      DrainEnds(p, before);
      assert steps[|steps| - 1] in steps;
      DrainStep(After(p, before), steps[|steps| - 1]);
    }
    var q := After(p, steps);
    if !AllExited(q.workers) {
      var i :| 0 <= i < |q.workers| && q.workers[i] != Exited;
      var s := if q.workers[i] == Runnable then Look(i) else Finish(i);
      assert WorkerStep(s) && Enabled(q, s);
    }
  }

  // ---------------------------------------------------------------- the critical sections on the linked queue

  /** The linked queue holds what the machine's pool says. */
  ghost predicate Mirrors(q: JobQueue.Queue<Job>, p: Pool)
    reads q, q.spine
  {
    q.Valid() && q.Contents() == p.queue && q.cap == p.cap && q.shuttingDown == p.shuttingDown
  }

  /** The critical section of threadpool_submit is a Submit step, whoever the signal wakes. */
  method SubmitSection(q: JobQueue.Queue<Job>, ghost p: Pool, job: Job, ghost woken: nat) returns (rc: int)
    requires Mirrors(q, p)
    modifies q, q.spine
    ensures Mirrors(q, Apply(p, Submit(job, woken)))
    ensures Apply(p, Submit(job, woken)).accepted == if rc == 0 then p.accepted + [job] else p.accepted
  {
    rc := q.Submit(job);
  }

  /** What the worker is doing after its critical section. */
  function Doing(turn: JobQueue.Turn<Job>): Worker {
    match turn
    case Wait => Blocked
    case Leave => Exited
    case Run(job) => Executing(job)
  }

  /** The critical section of worker_main is a Look step. */
  method LookSection(q: JobQueue.Queue<Job>, ghost p: Pool, ghost worker: nat) returns (turn: JobQueue.Turn<Job>)
    requires Mirrors(q, p) && Enabled(p, Look(worker))
    modifies q
    ensures Mirrors(q, Apply(p, Look(worker)))
    ensures Apply(p, Look(worker)).workers == p.workers[worker := Doing(turn)]
  {
    turn := q.Look();
    assert turn.Run? ==> p.queue[0] == turn.work && p.queue[1..] == q.Contents();
  }

  /** The critical section of threadpool_destroy is a Shutdown step. */
  method ShutdownSection(q: JobQueue.Queue<Job>, ghost p: Pool)
    requires Mirrors(q, p)
    modifies q`shuttingDown
    ensures Mirrors(q, Apply(p, Shutdown))
  {
    q.BeginShutdown();
  }
}
