# Two-phase commit payment gateway: model and proofs

A Dafny model of the payment gateway's two-phase-commit engine and of the concurrent machinery around it. Check it with
`dafny verify dfyconfig.toml`. Each file is one module and covers one part of the system.

| file | part of the system |
|---|---|
| TwoPhase.dfy | what `txn_commit` does, for arbitrary participants: outcome, trace of log lines and callback calls, write-ahead rule |
| TxnLog.dfy | every interleaving of transactions on one coordinator: the active list and the log |
| Coordinator.dfy | the coordinator object itself, its array compacted in place, refining both of the above |
| CrashPoints.dfy | what a reader of the log file may conclude at every crash point, other transactions writing to it too |
| Database.dfy, DbParticipant.dfy | PostgreSQL as the participant uses it, and the participant |
| Breaker.dfy | the circuit breaker shared by all workers |
| ClearingParticipant.dfy | hold, settle and release behind the breaker, with retries and backoff |
| Payment.dfy | the two participants composed: what is left behind, what APPROVED means, who can disagree |
| JobQueue.dfy, ThreadPool.dfy | the bounded linked job queue; workers under every interleaving |
| Reversal.dfy | the retry queue of failed payments, its worker, fairness and drain |
| Velocity.dfy, VelocityReference.dfy | the server's velocity table, and the plain per-PAN counter it implements |
| RiskService.dfy | the risk service's hashed velocity table |
| ClearingService.dfy | the clearing service's idempotent transaction table |
| Luhn.dfy | the card number check and the errors it detects |
| Runs.dfy, Powers.dfy | runs of a step machine; powers of two |

**How the environment appears.** A callback is a pair of functions over an arbitrary world, so a theorem about
`RunCommit` holds for every behaviour of every participant. Inside one payment, what other database sessions and
other workers do between two steps, the fate of each statement (it runs, it never runs, or it runs and the answer is
lost), the answer to each network attempt and the clock are parameters. Threads are interleaved at the granularity of
locked regions. Classes carry the fields the C code updates; their methods are proved against functions on values,
and the theorems are about those functions.

`Transaction.trace` records, at the place where each log line is written and each callback is called, what happened
in program order; `Coordinator.Commit` proves that this record is the trace of `RunCommit`, and
`CrashPoints.CrashAnywhere` that at every crash point, whatever other transactions have written in between, the last
life of the id in the file is the log of a beginning of that trace and tells the truth about the callbacks made by then.

**Where the code does not do what it says**, the model follows the code:

- The 2PC guide promises that either all systems update or none (2PC_CHUYEN_GIA_GUIDE.md:40). A failed commit does not
  undo one that succeeded. `TwoPhase.MixedOutcome` says exactly when the participants end up divided, and
  `TwoPhase.MixedHappens` shows two that do; `Payment.SidesAgreeIff` says exactly when network and database agree about
  a payment, `Payment.ChargedWithoutRowIff` exactly when money moves, no row is kept and the reply is DECLINED, and
  `Payment.ChargedWithoutRow` and `Payment.ChargedUnheard` are two payments where that happens.
- The log is written only if its file could be opened, so the write-ahead rule depends on that:
  `TwoPhase.WriteAheadIff`.
- `PREPARE TRANSACTION` that runs but whose answer is lost leaves a prepared transaction nobody rolls back, because the
  context still says "not prepared" and a plain `ROLLBACK` is sent. `Payment.Quiescence` gives the exact condition, and `Payment.OrphanBlocksRetries` what it costs: the
  request cannot be repeated until somebody resolves the orphan.
- threadpool.h:39-40 says that all queued jobs finish before destroy returns. A job submitted after the last worker
  left is dropped: `ThreadPool.WhatDestroyDrops`, `ThreadPool.LateSubmitIsDropped`.
- The comment at server/clearing_participant.c:126 says that a success closes the breaker and refreshes its window. It
  resets the count, but an open breaker stays open and a window that has begun goes on:
  `Breaker.SuccessClosesAndRefreshesIff`, `Breaker.StaysOpen`.
- The comment at server/risk.c:7 speaks of a sliding window. The window is fixed, so a PAN can be allowed 2*limit-1
  requests within `window` seconds (`VelocityReference.RateLimit`), and is for every setting with a window of two
  seconds or more (`VelocityReference.RateLimitIsTight`). The sliding promise holds exactly when the limit is one
  request or the window one second: `VelocityReference.SlidingIff`.
- The velocity table has 1024 slots. It agrees with a per-PAN counter throughout a run exactly when at most 1024 PANs
  are seen and no request with an empty PAN, which the handler lets through, comes once they are:
  `VelocityReference.TableIsMapIff`, `VelocityReference.EmptyPanEvicts`.
- The risk service stores 19 characters of a PAN and compares all of them. Declines are justified exactly as long as
  PANs fit: `RiskService.JustifiedIffPansFit`. Two PANs that share a slot are not limited at all when they take turns
  (`RiskService.RivalsAreUnlimited`); the service counts each of a set of PANs on its own exactly when no two of them
  share a slot: `RiskService.CountsExactlyIff`.
- The clearing service stores 127 characters of an id and compares all of them:
  `ClearingService.UniqueWhenPreparedTwiceIff`.

## Model

| member | source | states |
|---|---|---|
| TwoPhase.ExactOutcome | server/transaction_coordinator.c:229-309 | for arbitrary callbacks, either phase one stopped at participant k: result -1, 0..k-1 said yes, k said no, no commit call, exactly one abort for each of 0..k, the rest untouched in INIT; or everybody prepared, each commit ran once, each participant ended COMMITTED or ABORTED by its own commit's answer, aborts went to exactly the failed ones, and the result is 0 iff all answered 0 |
| TwoPhase.MixedOutcome | server/transaction_coordinator.c:258-300 | committed and aborted participants coexist exactly when some commit answered 0 and some commit did not |
| TwoPhase.MixedHappens | server/transaction_coordinator.c:258-300 | two participants that vote yes, of which one commits and the other does not: result -1, one COMMITTED, one ABORTED |
| TwoPhase.PreparesFailFast | server/transaction_coordinator.c:229-245 | only the last participant asked can have refused, and if anybody was not asked it did |
| TwoPhase.WriteAheadWithLog | server/transaction_coordinator.c:216-310 | at every crash point, a log without COMMIT_START means no commit callback has run, COMMIT_START means all voted yes, COMMITTED means every commit returned 0, ABORT_START without COMMIT_START means nobody has committed or ever will, and no abort callback ran before ABORT_START |
| TwoPhase.WriteAheadIff | server/transaction_coordinator.c:41-41 | that rule holds exactly when the log file is open or there is no participant |
| TxnLog.ActiveListIsReplayedLog | server/transaction_coordinator.c:38-85 | under every interleaving the array holds each id once, never more than 1024, and is exactly the unfinished transactions in begin order as rebuilt from the log alone; each line's state column matches its action |
| TxnLog.TraceLanguage | server/transaction_coordinator.c:138-335 | under every interleaving the log of one id is a sequence of complete lives (committed, aborted late, aborted early, aborted explicitly) and the beginning of one more, and it is complete exactly when the id is not active |
| TxnLog.InvStep | server/transaction_coordinator.c:138-335 | every locked region keeps the invariant behind both |
| TxnLog.LookupAfter | server/transaction_coordinator.c:55-85 | a locked region moves its own transaction to the expected state and leaves every other transaction as it was |
| TxnLog.AfterRestart | server/transaction_coordinator.c:107-111 | the file is opened for appending: with an earlier process's lines in front, replay and language hold of the lines since the start |
| TxnLog.OlderLinesStay | server/transaction_coordinator.c:107-111 | older lines change no step and stay in front of the new ones |
| Coordinator.Transaction.Register | server/transaction_coordinator.c:185-214 | at most 8 participants; a new one is appended in INIT, its name cut to 31 characters, a ninth is refused and changes nothing |
| Coordinator.Transaction.PrepareAll | server/transaction_coordinator.c:229-245 | the loop makes the calls of `Prepares`, in order, stops at the first failure and leaves PREPARED, FAILED and INIT states accordingly |
| Coordinator.Transaction.CommitAll | server/transaction_coordinator.c:257-273 | the loop commits everybody whatever the others answer |
| Coordinator.Transaction.AbortUnfinished | server/transaction_coordinator.c:292-300 | the abort loop calls exactly the prepared and the failed ones and leaves them ABORTED |
| Coordinator.Transaction.AbortEveryone | server/transaction_coordinator.c:324-328 | the loop of `txn_abort` calls everybody exactly once, in order, each on the world the one before left, whatever their state; all end ABORTED |
| Coordinator.Coordinator.constructor | server/transaction_coordinator.c:87-115 | an empty coordinator is the start of the interleaving model |
| Coordinator.Coordinator.LogState | server/transaction_coordinator.c:38-50 | one line, with the transaction's present state, and only if the log is open |
| Coordinator.Coordinator.FindTransaction | server/transaction_coordinator.c:55-64 | null exactly when the id is not active, else the transaction with that id |
| Coordinator.Coordinator.ShiftDown | server/transaction_coordinator.c:78-81 | the shifting loop removes one element and keeps the order of the rest |
| Coordinator.Coordinator.RemoveTransaction | server/transaction_coordinator.c:69-85 | the active list loses exactly this id, order kept, and holds it no more; an unknown id changes nothing |
| Coordinator.Coordinator.Begin | server/transaction_coordinator.c:138-183 | refused exactly when the id is active or the array is full, and then nothing changes; else a fresh INIT transaction is appended and BEGIN logged |
| Coordinator.Coordinator.MarkPreparing | server/transaction_coordinator.c:219-227 | the first locked region of `txn_commit` is the StartPrepare step |
| Coordinator.Coordinator.MarkCommitting | server/transaction_coordinator.c:246-255 | the region between the phases is the DecideCommit step: PREPARED then COMMIT_START |
| Coordinator.Coordinator.MarkCommitted | server/transaction_coordinator.c:274-283 | COMMITTED is logged and the transaction leaves the array |
| Coordinator.Coordinator.MarkAborting | server/transaction_coordinator.c:286-290 | the region that opens the abort path is the StartAbort step |
| Coordinator.Coordinator.MarkAborted | server/transaction_coordinator.c:301-306 | ABORTED is logged and the transaction leaves the array |
| Coordinator.Coordinator.PhaseOne | server/transaction_coordinator.c:216-246 | PREPARE_START comes before the first prepare call; other transactions may have run meanwhile |
| Coordinator.Coordinator.PhaseTwo | server/transaction_coordinator.c:246-274 | COMMIT_START comes before the first commit call |
| Coordinator.Coordinator.RollBack | server/transaction_coordinator.c:286-309 | ABORT_START, then the abort calls, then ABORTED, and the transaction ends ABORTED |
| Coordinator.Coordinator.CommitOrRollBack | server/transaction_coordinator.c:246-309 | phase two and its end: COMMITTED or the abort path |
| Coordinator.Coordinator.Commit | server/transaction_coordinator.c:216-310 | with other transactions at work whenever the lock is free: result, world, participant states and the recorded order of log lines and calls are those of `RunCommit`, the run is a run of the interleaving model, its steps for this id are the ones the callbacks decide, and the id is not active afterwards |
| Coordinator.Coordinator.AbortTxn | server/transaction_coordinator.c:312-335 | ABORT_EXPLICIT, exactly one abort call to each participant in order, ABORTED, removed: one atomic step, after which the id is not active |
| Coordinator.RunCommitSplits | server/transaction_coordinator.c:216-310 | `RunCommit` is phase one followed by either phase two or the abort path |
| Coordinator.OthersKeepLog | server/transaction_coordinator.c:138-148 | while an id is active no other thread writes a log line for it, nor removes it |
| Coordinator.LogIsTrace | server/transaction_coordinator.c:216-310 | whatever others wrote in between, the lines one finished `txn_commit` adds for its id are exactly the log lines of its trace |
| CrashPoints.GrewAllAlong | server/transaction_coordinator.c:216-310 | at every point of a `txn_commit` among other transactions, only its own regions have written lines for its id |
| CrashPoints.FileHoldsOwnLines | server/transaction_coordinator.c:38-50 | the same inside a region, between its log lines |
| CrashPoints.BeginIsLast | server/transaction_coordinator.c:174-177 | in every reachable state, older lines or not, the last thing the file says about a transaction not yet driven is its BEGIN |
| CrashPoints.CrashAnywhere | server/transaction_coordinator.c:216-310 | at every crash point the last life of the id in the file is the log of a beginning of the trace, and for every such beginning: no COMMIT_START, no commit callback run; COMMIT_START, all voted yes; COMMITTED, every commit returned 0; ABORT_START without COMMIT_START, nobody committed or ever will; no abort callback before ABORT_START |
| DbParticipant.Participant.constructor | server/db_participant.c:8-19 | a new context is in no transaction |
| DbParticipant.Participant.Begin | server/db_participant.c:32-59 | refused without a statement when already in a transaction; otherwise an empty transaction is opened unless BEGIN is refused, and the context enters it only when the answer is yes |
| DbParticipant.Participant.InsertTransaction | server/db_participant.c:61-80 | refused without a statement outside a transaction; otherwise what `InsertMeans` states |
| DbParticipant.Participant.PrepareTxn | server/db_participant.c:82-114 | another id or no open transaction is refused without a statement; an open one moves under its global name unless the statement is refused, and the context leaves it only when the answer is yes |
| DbParticipant.Participant.CommitTxn | server/db_participant.c:116-142 | the rows waiting under the global name are committed unless the statement is refused, heard or not; the id is forgotten only on success |
| DbParticipant.Participant.AbortTxn | server/db_participant.c:144-177 | ROLLBACK when the context says open, else ROLLBACK PREPARED; a waiting transaction survives exactly when the wrong one is sent or it is refused; always 0 |
| DbParticipant.Participant.DestroyCtx | server/db_participant.c:21-30 | an open context is rolled back, leaving nothing on the connection unless the rollback is refused; any other is left alone |
| DbParticipant.BeginMeans | server/db_participant.c:32-59 | how each fate of BEGIN leaves context and server |
| DbParticipant.InsertMeans | server/db.c:116-214 | an insert succeeds exactly when it runs, no other transaction holds the request id and, for a repetition, the look-up runs too; then exactly this row is added, or none for a repetition, and the duplicate flag says exactly which |
| DbParticipant.DestroyMeans | server/db_participant.c:21-30 | what destroying a context leaves on the connection |
| DbParticipant.PrepareMeans | server/db_participant.c:82-114 | how each fate of PREPARE TRANSACTION leaves context and server |
| DbParticipant.CommitMeans | server/db_participant.c:116-142 | how each fate of COMMIT PREPARED leaves context and server |
| DbParticipant.AbortMeans | server/db_participant.c:144-177 | a waiting transaction survives the abort exactly when the context still said open or the rollback was refused |
| DbParticipant.RollbackCommitsNothing | server/db_participant.c:155-160 | a request id held under the global name is carried by no committed row after the rollback, whatever other sessions did |
| DbParticipant.HeldBlocksInsert | server/db.c:145-206 | while a prepared transaction holds a request id, every insert with it fails |
| Database.ExecKeepsUnique | server/db.c:145-158 | no statement makes two rows, committed or pending, carry one request id |
| Database.OthersDoNotDisturb | server/db_participant.c:94-98 | sessions with other connections and other global names leave this transaction as it is and only add committed rows |
| Database.ExactlyOne | server/db.c:201-206 | a present request id is carried by exactly one row |
| Breaker.CircuitBreaker.ShouldShortCircuit | server/clearing_participant.c:100-120 | the answer and the new state are those of a check event |
| Breaker.CircuitBreaker.OnResult | server/clearing_participant.c:122-141 | the new state is that of a report event |
| Breaker.ClosedMeansBelow | server/clearing_participant.c:134-138 | after any events, a closed breaker has counted fewer failures than the threshold |
| Breaker.WindowStep | server/clearing_participant.c:108-134 | for every event: a new window starts now exactly when none is in force where one is looked for, or a check closes the breaker; the count starts afresh with it, a success clears it, a failure adds one |
| Breaker.WindowInForceStays | server/clearing_participant.c:113-134 | a window in force is kept by every event but a check that closes the breaker |
| Breaker.WindowsAreApart | server/clearing_participant.c:113-134 | over any run two window starts lie more than `window` seconds apart unless a check closed the breaker between them |
| Breaker.SpellIsCounted | server/clearing_participant.c:129-134 | while it stays closed, a bad spell within one window length loses at most threshold-1 failures to one window restart |
| Breaker.MustTrip | server/clearing_participant.c:100-141 | after any history, 2*threshold-1 failures in a row within `window` seconds, with checks interleaved, open the breaker along the way |
| Breaker.MustTripIsTight | server/clearing_participant.c:129-134 | for every setting, 2*threshold-2 failures one second apart can leave it closed |
| Breaker.CountIsWitnessed | server/clearing_participant.c:114-134 | the count is always the number of failures since a point after the last success, all inside the present window |
| Breaker.TripsOnlyWithCause | server/clearing_participant.c:135-138 | every opening comes from exactly `threshold` failures in a row, the last one the opening itself, inside the last `window` seconds |
| Breaker.StaysOpen | server/clearing_participant.c:103-107 | before openedAt + open_seconds every check short-circuits and it stays open, whatever results arrive |
| Breaker.SuccessClosesAndRefreshesIff | server/clearing_participant.c:125-128 | after a success the count is 0, the breaker is closed exactly if it was, and a window that has begun stays; the window starts now exactly if there was none or it did already |
| Breaker.ClosesOnTime | server/clearing_participant.c:108-117 | the first later check closes it, with a clean count and a new window |
| ClearingParticipant.AttemptsExactly | server/clearing_participant.c:239-247 | k misses: k+1 copies of the request are sent if an attempt is left for the answer, else k; 100*(2^k-1) ms slept; acknowledged only by an OK answer |
| ClearingParticipant.AttemptsDone | server/clearing_participant.c:239-247 | each attempt the network carried out, answered or not, was carried out once |
| ClearingParticipant.RetryAccounting | server/clearing_participant.c:230-252 | a guarded request either short-circuits (nothing sent, nothing reported) or sends at most max_retries+1 copies, reports to the breaker exactly once, and sleeps 100*(2^k-1) ms for k misses; what is acknowledged and what is carried out, heard or not |
| ClearingParticipant.BackoffExact | server/clearing_participant.c:244-246 | the 32-bit backoff is the intended one exactly up to attempt 15 |
| ClearingParticipant.Participant.SendWithRetry | server/clearing_participant.c:297-304 | the loop is the recursion the accounting is proved for |
| ClearingParticipant.Participant.Guard | server/clearing_participant.c:289-309 | check, requests and one report, other workers using the breaker in between |
| ClearingParticipant.Participant.SetTxn | server/clearing_participant.c:180-206 | the id is remembered and the hold flag kept |
| ClearingParticipant.Participant.PrepareTxn | server/clearing_participant.c:208-265 | another id is refused without a request; at most max_retries+1 hold requests go out; one is acknowledged, and the hold flag set, exactly on success |
| ClearingParticipant.Participant.CommitTxn | server/clearing_participant.c:267-323 | no hold or another id is refused without a request; at most max_retries+1 settle requests go out; one is acknowledged, and hold and id cleared, exactly on success |
| ClearingParticipant.Participant.AbortTxn | server/clearing_participant.c:325-366 | exactly one release request, past breaker and retries; hold and id always cleared, always 0 |
| ClearingParticipant.Participant.DestroyCtx | server/clearing_participant.c:169-178 | releases exactly when a hold is remembered |
| ClearingParticipant.DestroyMeans | server/clearing_participant.c:169-178 | destroying a context sends one release for the hold it remembers, and otherwise nothing |
| Payment.SettleUnrolls | server/handler.c:429-436 | `txn_commit` with these two participants in this order, step by step |
| Payment.Quiescence | server/handler.c:496-501 | whatever fails, neither context holds anything afterwards, the destroy calls change nothing, the connection is free, request ids stay unique, and a prepared transaction survives, with its rows, exactly when the answer to PREPARE was lost or the rollback that was due was refused |
| Payment.OrphanBlocksRetries | server/handler.c:478-494 | after a payment that leaves an orphan, whatever other sessions do short of resolving it, every repetition of the request fails at its insert |
| Payment.HoldsAreClosed | server/clearing_participant.c:325-366 | every hold requested during a payment is followed by a release, or its settlement was acknowledged |
| Payment.ApprovedIsSettled | server/handler.c:503-511 | an approved payment was settled by the network during it, exactly one committed row carries its non-empty request id, and nothing is left prepared |
| Payment.ClearingDecides | server/transaction_coordinator.c:257-273 | the network acknowledges the settlement exactly when both sides prepared and it says yes, whatever the database answered |
| Payment.ChargedIff | server/clearing_participant.c:295-323 | the settlement stands, heard or not, exactly when both sides prepared, an attempt was carried out, and it was acknowledged or the release that then follows is not carried out |
| Payment.DatabaseDecides | server/transaction_coordinator.c:257-273 | once both prepared, a new payment's request id is carried by a committed row exactly when COMMIT PREPARED reached the server, heard or not |
| Payment.SplitDecision | server/transaction_coordinator.c:266-271 | the two sides decide independently in phase two: acknowledged settlement and committed row, each as an iff; the payment is approved exactly when both say yes and are heard |
| Payment.SidesAgreeIff | server/transaction_coordinator.c:266-271 | once both prepared, network and database agree, charged and recorded or neither, exactly when the settlement stands and COMMIT PREPARED arrived or neither; the two ways to part, and the carried-out payment that is declined, each as an iff |
| Payment.ChargedWithoutRowIff | server/transaction_coordinator.c:266-271 | charged without a committed row, and then DECLINED, exactly when both prepared, the settlement stands and COMMIT PREPARED never ran |
| Payment.ChargedWithoutRow | server/handler.c:512-522 | a payment that is settled and acknowledged, has no row, and is declined |
| Payment.ChargedUnheard | server/clearing_participant.c:305-308 | a payment whose settlement is carried out unheard, whose release gets nowhere, has no row, and is declined |
| Payment.SetUpMeans | server/handler.c:450-494 | when the set-up succeeds, as an iff over the fates of its statements; it then leaves a transaction holding exactly this row, or none for a repetition of a recorded request, and has sent nothing |
| Payment.SetUpIsReady | server/handler.c:450-494 | a successful set-up gives `txn_commit` what the payment theorems require |
| Payment.RegisterBoth | server/handler.c:428-436 | both registrations succeed on a new transaction, database first |
| Payment.BeginPayment | server/handler.c:399-448 | refused exactly when the id is active or the array full; else a fresh transaction with both participants, ready to be driven |
| Payment.FinishPayment | server/handler.c:496-522 | the handler from `txn_commit` to the reply: APPROVED iff both sides said yes and were heard, with what APPROVED guarantees and the rows it commits; otherwise DECLINED and a reversal; the id is not active afterwards |
| Payment.HandlePayment | server/handler.c:395-522 | one payment from `txn_begin` to the reply on a free connection, other transactions at work throughout: the reply in every case, APPROVED exactly when the set-up succeeded and both sides said yes and were heard; then it was settled during the payment, this very row is committed unless the request was recorded before, exactly one row carries a non-empty request id, and nothing is left prepared; every end of `txn_commit` leaves the connection free; a reversal exactly for commit_failed; the id is not active afterwards |
| JobQueue.Queue.constructor | server/threadpool.c:89-99 | empty queue; a non-positive capacity means 1024 |
| JobQueue.Queue.Submit | server/threadpool.c:127-150 | refused exactly when full, else appended; head, tail and size stay consistent |
| JobQueue.Queue.Look | server/threadpool.c:55-75 | waits, leaves or unlinks the oldest job, each exactly when it should |
| JobQueue.Queue.BeginShutdown | server/threadpool.c:156-162 | sets the flag and keeps the jobs |
| ThreadPool.InvAlways | server/threadpool.c:52-150 | the invariant holds in every state of every interleaving of submits, signals, spurious wake-ups and shutdown |
| ThreadPool.NoLostWakeupStep | server/threadpool.c:59-61 | a blocked worker always means at least as many runnable workers as queued jobs, and no shutdown |
| ThreadPool.WorkNeverSleeps | server/threadpool.c:52-85 | a non-empty queue never has all its workers asleep |
| ThreadPool.FirstInFirstOut | server/threadpool.c:69-82 | the jobs accepted are the jobs started followed by the jobs queued, in order; each started job has finished once or is in one worker's hands; the bound is kept |
| ThreadPool.WhatDestroyDrops | server/threadpool.c:154-174 | after the joins exactly the jobs accepted after the last exit are dropped, so every accepted job has run iff there is none, in particular if none came after shutdown began |
| ThreadPool.LateSubmitIsDropped | server/threadpool.c:165-168 | a late job that is accepted and never run |
| ThreadPool.DrainStep | server/threadpool.c:59-68 | during shutdown each worker step uses up one unit of the work left |
| ThreadPool.DrainEnds | server/threadpool.c:154-163 | after shutdown begins the number of worker steps is bounded, and there is always one to take until all workers have left |
| ThreadPool.SubmitSection | server/threadpool.c:135-149 | the critical section on the linked queue is the machine's Submit step |
| ThreadPool.LookSection | server/threadpool.c:55-75 | the critical section on the linked queue is the machine's Look step |
| ThreadPool.ShutdownSection | server/threadpool.c:156-162 | the critical section on the linked queue is the machine's Shutdown step |
| Reversal.TaskList.Push | server/reversal.c:39-48 | appended at the end of the list, everything else kept |
| Reversal.TaskList.Unlink | server/reversal.c:54-55 | exactly this task leaves the list |
| Reversal.TaskList.PopReady | server/reversal.c:50-62 | the first due task leaves, the order of the rest is kept; null exactly when none is due |
| Reversal.TaskList.AfterAttempt | server/reversal.c:95-114 | success forgets, the last allowed failure gives up, any other failure is appended again, due baseDelayMs * 2^(n-1) / 1000 seconds from now after the n-th failure |
| Reversal.ServedInTurn | server/reversal.c:39-116 | in every run of the worker, whatever is enqueued or fails and comes back meanwhile, a due task at position p is taken in hand by the (p+1)-th pop, and its key is unique |
| Reversal.NewTaskIsServed | server/reversal.c:139-145 | a new task is due at once and is taken in hand after those queued before it |
| Reversal.NotBeforeDue | server/reversal.c:50-62 | whatever happens, a task is not taken in hand before it is due and stays queued |
| Reversal.DelayDoubles | server/reversal.c:110-111 | the n-th failure is followed by a wait of baseDelayMs * 2^(n-1) ms in whole seconds, which doubles each time |
| Reversal.InvAlways | server/reversal.c:64-117 | conservation and the attempt bounds hold in every reachable state |
| Reversal.NothingLost | server/reversal.c:95-114 | every task is in exactly one place; enqueued = succeeded + failed + queued + in hand; no more than max_attempts tries each, and exactly that many before giving up |
| Reversal.DrainStep | server/reversal.c:102-114 | every attempt uses up some of the remaining attempts |
| Reversal.DrainEnds | server/reversal.c:66-74 | without new tasks the worker's attempts are bounded, and once waiting tasks are due it can always go on until the queue is empty and it leaves |
| Reversal.CanDrain | server/reversal.c:64-117 | from every shutdown state the worker has steps that lead to an empty queue, where it can leave |
| Reversal.WhatShutdownDrops | server/reversal.c:151-163 | after the worker left, exactly the tasks enqueued since are still queued and dropped: enqueued = succeeded + failed + those |
| Reversal.EnqueueSection | server/reversal.c:132-145 | enqueueing on the linked list is the machine's Enqueue step |
| Reversal.PopSection | server/reversal.c:75-84 | the worker's pop on the linked list is the machine's PopDue step |
| Reversal.AttemptSection | server/reversal.c:95-114 | what follows an attempt is the machine's Succeed or Fail step |
| Velocity.Table.VelGet | server/risk.c:30-48 | one scan finds the PAN's slot, else the first free one, else the oldest, and takes it |
| Velocity.ChoosesSlot | server/risk.c:36-47 | a PAN keeps its slot; a new one takes the first free slot, and only that changes |
| Velocity.Table.RiskEvaluate | server/risk.c:50-66 | counting and the decision, window restart included |
| Velocity.EvictsOldest | server/risk.c:39-47 | a full table evicts the first slot among those with the oldest window start, and nothing else changes |
| Velocity.HonestStep | server/risk.c:50-66 | no slot ever counts more requests than its PAN made since the slot's window began |
| Velocity.DeclineIsJustified | server/risk.c:61-65 | a decline means more than `limit` requests by that PAN in the last `window` seconds, despite evictions |
| VelocityReference.MatchesStep | server/risk.c:30-66 | one evaluation on a table that agrees with the per-PAN map decides as the map does and agrees again |
| VelocityReference.MatchesStepIff | server/risk.c:30-48 | one evaluation keeps the table equal to the map exactly when the PAN has a slot or one is free |
| VelocityReference.TableIsMap | server/risk.c:14-47 | while at most 1024 PANs are seen, and no empty PAN once they are, no PAN has two slots and the table is the map |
| VelocityReference.TableDecidesAsMap | server/risk.c:50-66 | and every decision is the map's |
| VelocityReference.TableIsMapIff | server/risk.c:14-48 | the table is the map at every point of a run exactly when at most 1024 PANs are seen and no empty PAN comes once they are |
| VelocityReference.EmptyPanEvicts | server/risk.c:37-47 | 1024 cards, then an empty PAN: a card is forgotten and allowed again within the window, where the counter declines it |
| VelocityReference.WithinOneWindow | server/risk.c:57-62 | a window that started in a span allows what is left of its limit to the end of the span |
| VelocityReference.WithinAnySpan | server/risk.c:57-62 | the map allows a PAN at most 2*limit-1 requests in any `window` seconds, and at most `limit` if the window is one second |
| VelocityReference.ServerAllowsAsMap | server/risk.c:50-66 | over any stretch of a run the table allows as many as the map |
| VelocityReference.RateLimit | server/risk.c:50-66 | hence so does the server |
| VelocityReference.RateLimitIsTight | server/risk.c:57-62 | for every setting, a run in which the bound of `RateLimit` is reached |
| VelocityReference.SlidingIff | server/risk.c:7-7 | at most `limit` in any `window` seconds holds over all such runs exactly when the limit is one request or the window one second |
| RiskService.HashPan | microservices/risk-service/src/main.c:68-74 | wrapping at every step gives the base-31 polynomial modulo 2^32 |
| RiskService.Table.CheckVelocityLimit | microservices/risk-service/src/main.c:94-135 | entry, answer and block counter after one check |
| RiskService.DeclineIsJustified | microservices/risk-service/src/main.c:121-134 | despite collisions and overwriting, a decline means more than `limit` requests in the last `window` seconds by PANs stored alike |
| RiskService.ShortPanDeclineIsJustified | microservices/risk-service/src/main.c:43-49 | by that very PAN, when no PAN is longer than the field |
| RiskService.LongPanIsMiscounted | microservices/risk-service/src/main.c:103-107 | a 20-digit PAN charged to its 19-digit prefix |
| RiskService.JustifiedIffPansFit | microservices/risk-service/src/main.c:102-110 | every decline is justified by that PAN's own requests exactly for PANs of at most 19 characters |
| RiskService.AloneIsExact | microservices/risk-service/src/main.c:94-134 | while nobody else lands on its slot a PAN is treated exactly as a plain counter of its own would |
| RiskService.RivalsAreUnlimited | microservices/risk-service/src/main.c:102-110 | two PANs on one slot taking turns are allowed any number of requests in one second, whatever the limit |
| RiskService.RivalsExist | microservices/risk-service/src/main.c:68-74 | two four-digit PANs that share a slot |
| RiskService.RivalsAreMiscounted | microservices/risk-service/src/main.c:102-110 | for every setting, two such PANs taking turns are allowed a request their own counters decline |
| RiskService.CountsExactlyIff | microservices/risk-service/src/main.c:94-134 | for PANs that fit the field, the service decides as a counter per PAN in every history over them exactly when no two share a slot |
| ClearingService.Service.FindTransaction | microservices/clearing-service/src/main.c:92-99 | the first record with the id, or none |
| ClearingService.Service.AddTransaction | microservices/clearing-service/src/main.c:102-116 | refused exactly at 10000 records, else one is appended |
| ClearingService.Service.HandlePrepare | microservices/clearing-service/src/main.c:157-220 | reply in every case, counters, and the records: a new id is appended as PREPARED with each detail cut to its field, and otherwise nothing changes |
| ClearingService.Service.HandleCommit | microservices/clearing-service/src/main.c:237-289 | reply in every case, counters, and the records: a PREPARED record becomes COMMITTED and nothing else changes |
| ClearingService.Service.HandleAbort | microservices/clearing-service/src/main.c:306-330 | reply in every case, counters, and the records: a known record becomes ABORTED and nothing else changes |
| ClearingService.LookupStep | microservices/clearing-service/src/main.c:180-327 | what one message does to what a look-up of any id finds |
| ClearingService.FateOfRecord | microservices/clearing-service/src/main.c:180-327 | in every run, from the messages alone: a record is there exactly when a prepare stored it, and is ABORTED if an abort of it followed, else COMMITTED if a commit without failure did, else PREPARED |
| ClearingService.CommittedIff | microservices/clearing-service/src/main.c:260-276 | COMMITTED exactly when stored by a prepare, then committed without failure, and never aborted since |
| ClearingService.DuplicatesChangeNothing | microservices/clearing-service/src/main.c:182-192 | at every point of every run the records and success counters are those of the run without the redeliveries of applied messages |
| ClearingService.OnlyForward | microservices/clearing-service/src/main.c:262-276 | records never move or go, ids never change, states only rise PREPARED < COMMITTED < ABORTED, so nothing aborted commits |
| ClearingService.CountersAddUp | microservices/clearing-service/src/main.c:65-72 | successful commits <= successful prepares = number of records, and successes and failures never exceed the totals |
| ClearingService.CountersCount | microservices/clearing-service/src/main.c:65-72 | what each of the seven counters counts, over every run |
| ClearingService.IdsAreUnique | microservices/clearing-service/src/main.c:182-196 | ids that fit the record are stored once each |
| ClearingService.UniqueWhenPreparedTwiceIff | microservices/clearing-service/src/main.c:102-108 | while there is room, preparing an id twice keeps ids unique exactly when it fits |
| Luhn.LuhnCheck | server/handler.c:49-63 | accepts exactly the digit strings whose weighted digit sum is a multiple of ten |
| Luhn.ZerosAreAccepted | server/handler.c:49-63 | zeros, any number of them and none at all, are accepted |
| Luhn.LastDigitCountsOnce | server/handler.c:49-63 | the last digit adds itself to the sum |
| Luhn.NextDigitCountsDouble | server/handler.c:49-63 | the digit before it adds the digit sum of its double |
| Luhn.OneCheckDigit | server/handler.c:49-63 | every digit prefix has exactly one accepted last character |
| Luhn.SingleChangeIsRejected | server/handler.c:49-63 | every change of one character of an accepted string is rejected |
| Luhn.TwoChanges | server/handler.c:49-63 | two digits replaced at once go unnoticed exactly when their weights' moves cancel modulo ten |
| Luhn.SwapIsRejectedUnlessZeroNine | server/handler.c:49-63 | a swap of neighbours goes unnoticed exactly when they are equal or are 0 and 9 |
| Luhn.TwinChangeIsRejectedUnless | server/handler.c:49-63 | aa read as bb goes unnoticed exactly for 22/55, 33/66 and 44/77 |
| Luhn.EvenSwapIsMissed | server/handler.c:49-63 | a swap of digits an even distance apart is never noticed |

## Left out

- Coordinator.Coordinator.Begin: requires an id of at most 63 characters, because a longer one is stored truncated (server/transaction_coordinator.c:164-165) and the handler's own ids always fit (server/handler.c:396-397).
- Coordinator.Coordinator.AbortTxn: requires a transaction nobody is driving; in any other state it is inside its `txn_commit`, or freed.
- Coordinator.Coordinator.Commit: lets other threads in once after each locked region instead of before every callback, which is the same for the coordinator since callbacks do not touch it; each transaction is driven once, by one `txn_commit` or one `txn_abort`. Other threads' effect on a participant's own world is inside its callbacks. Participants are a sequence of at most 8 values, not an array of records.
- Coordinator.Coordinator.constructor: begins with a new log file; `TxnLog.AfterRestart` covers a file that holds older lines. Timeouts are left out.
- Coordinator.Coordinator.LogState: leaves out the time column. A line in the log has been flushed to the operating system, not forced to disk.
- Coordinator.Transaction.Register: NULL names and callbacks, which are refused, do not exist in the model.
- TxnLog.ActiveListIsReplayedLog: about the lines of this process; so is `TxnLog.TraceLanguage`. `TxnLog.AfterRestart` adds an earlier process's lines.
- DbParticipant.Participant.InsertTransaction: does not model the status column that is returned, nor the fallback of `db_thread_get` to a connection shared by threads; connections are taken as private to a thread.
- ClearingParticipant.Participant.SetTxn: PAN, amount and merchant of the payload are left out.
- ClearingParticipant.Participant.SendWithRetry: sleeps are summed exactly; shifts of 31 and more, which C leaves undefined, are not modelled beyond `BackoffExact`.
- Payment.ApprovedIsSettled: speaks of this payment's own settlement request; "at most one settlement per request id" does not hold, since a duplicate also goes through `txn_commit` (server/handler.c:479-497).
- Payment.ClearingDecides: is about acknowledgements; `Payment.ChargedIff` is about what the network carried out.
- Payment.SidesAgreeIff: is about payments both sides prepared and that inserted their own row. When one side did not prepare nothing is settled (`Payment.SplitDecision`), and a row with the same request id can then come from another session.
- Payment.HandlePayment: promises nothing about network and database after a failed set-up. There the code destroys the contexts and then lets `txn_abort` call back into them (server/handler.c:443-491); the model treats them as still readable. NULL contexts and refused registrations do not occur.
- Breaker.TripsOnlyWithCause: needs clock values that never decrease in lock order, though the code reads the clock before it takes the lock. `MustTrip`, `StaysOpen` and `ClosedMeansBelow` do not need that. Counts are unbounded integers.
- ThreadPool.WhatDestroyDrops: jobs are identified by a number. The failure path of `threadpool_create` and its default of 4 threads are not modelled.
- Settings are taken as given: reading them from the environment, with their defaults, is not modelled.
- Reversal.TaskList.AfterAttempt: the doubled delay is an unbounded integer; overflow of the C int is not modelled. The result of the clearing abort is any boolean, although that call always answers 0 for a live context.
- Reversal.DrainEnds: bounds attempts, not idle waits, whose number depends on the clock.
- Velocity.Table.RiskEvaluate: sequential, since the code has no lock; PANs fit the 64-byte field, as in the request (server/iso8583.h:14), and counts are unbounded.
- VelocityReference.RateLimit: is about non-empty PANs in runs where the table never evicts. A request with an empty PAN is always allowed, and an evicted PAN starts afresh.
- RiskService.Table.CheckVelocityLimit: leaves out `last_seen`, which nothing reads, and overflow of the count; clock values never decrease in lock order.
- ClearingService.DuplicatesChangeNothing: is about records and success counters; the total and failure counters do count redeliveries. An abort of an unknown id leaves no record, so a later prepare succeeds.
- ClearingService.Service.AddTransaction: creation and update times, error text and retry count are left out.
- ClearingService.Service.HandlePrepare: is one atomic step, so counters and records move together; the update time and malformed requests are left out.
- ClearingService.Service.HandleCommit: the same.
- ClearingService.Service.HandleAbort: the same.
- Luhn.LuhnCheck: sums are unbounded; the caller's PAN has at most 63 characters.
- Memory: allocation failure, free, and the log message written with the id after the transaction was freed (server/transaction_coordinator.c:304-308) are outside the model.
- Recovery (`txn_recover`) is a stub, and the prepare and commit timeouts are stored but never enforced.
- Sockets, request framing, HTTP, JSON, libpq, curl and the payment service's wire calls; parsing of amounts, PAN masking, log texts, metrics and status queries.
- The ledger service, load generator, scripts and deployment files.
