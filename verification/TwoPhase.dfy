/**
  The two-phase-commit engine (server/transaction_coordinator.c) as a function of its callbacks.

  A participant is a triple of callbacks over a world of type `W`.  A callback maps the world to a new
  world and a return code, so it stands for any C callback together with its context, the outside
  systems it talks to and whatever other threads do to those systems before it runs.

  `RunCommit` is the value `txn_commit` computes; the class in Coordinator.dfy refines it.  Its trace
  records every log line and every callback call in program order, so the crash points inside
  `txn_commit` are exactly the prefixes of that trace.
 */
module TwoPhase {

  datatype TxnState =
    TxnInit | TxnPreparing | TxnPrepared | TxnCommitting | TxnCommitted | TxnAborting | TxnAborted

  datatype ParticipantState = PartInit | PartPrepared | PartCommitted | PartAborted | PartFailed

  /** The action column of the transaction log. */
  datatype Action =
    Begun | PrepareStart | AllPrepared | CommitStart | Committed | AbortStart | AbortExplicit | Aborted

  datatype Phase = Prepare | Commit | Abort

  datatype Callbacks<!W> = Callbacks(
    prepare: (W, string) -> (W, int),
    commit: (W, string) -> (W, int),
    abort: (W, string) -> (W, int))

  /** One externally visible thing `txn_commit` does. */
  datatype Event = Logged(action: Action) | Called(phase: Phase, index: nat, rc: int)

  datatype Outcome<W> = Outcome(rc: int, world: W, trace: seq<Event>, states: seq<ParticipantState>)

  // ---------------------------------------------------------------- the three loops

  /** Go on preparing after the return codes `rcs`, stopping at the first failure. */
  function PreparesFrom<W>(ps: seq<Callbacks<W>>, id: string, w: W, rcs: seq<int>): (r: (W, seq<int>))
    requires |rcs| <= |ps|
    ensures |r.1| <= |ps|
    decreases |ps| - |rcs|
  {
    if |rcs| == |ps| then (w, rcs)
    else
      var (w1, rc) := ps[|rcs|].prepare(w, id);
      if rc != 0 then (w1, rcs + [rc]) else PreparesFrom(ps, id, w1, rcs + [rc])
  }

  function Prepares<W>(ps: seq<Callbacks<W>>, id: string, w: W): (W, seq<int>) {
    PreparesFrom(ps, id, w, [])
  }

  /** Go on committing after the return codes `rcs`, whatever the answers. */
  function CommitsFrom<W>(ps: seq<Callbacks<W>>, id: string, w: W, rcs: seq<int>): (r: (W, seq<int>))
    requires |rcs| <= |ps|
    ensures |r.1| == |ps|
    decreases |ps| - |rcs|
  {
    if |rcs| == |ps| then (w, rcs)
    else
      var (w1, rc) := ps[|rcs|].commit(w, id);
      CommitsFrom(ps, id, w1, rcs + [rc])
  }

  function Commits<W>(ps: seq<Callbacks<W>>, id: string, w: W): (W, seq<int>) {
    CommitsFrom(ps, id, w, [])
  }

  predicate NeedsAbort(s: ParticipantState) {
    s == PartPrepared || s == PartFailed
  }

  /** Abort, from index `i` on, every participant that is prepared or failed; the calls, after `done`. */
  function AbortsFrom<W>(ps: seq<Callbacks<W>>, states: seq<ParticipantState>, id: string, w: W, i: nat,
                         done: seq<Event>): (W, seq<Event>)
    requires i <= |ps| == |states|
    decreases |ps| - i
  {
    if i == |ps| then (w, done)
    else if NeedsAbort(states[i]) then
      var (w1, rc) := ps[i].abort(w, id);
      AbortsFrom(ps, states, id, w1, i + 1, done + [Called(Abort, i, rc)])
    else AbortsFrom(ps, states, id, w, i + 1, done)
  }

  function Aborts<W>(ps: seq<Callbacks<W>>, states: seq<ParticipantState>, id: string, w: W): (W, seq<Event>)
    requires |ps| == |states|
  {
    AbortsFrom(ps, states, id, w, 0, [])
  }

  /** Only the last return code can be a failure, and it is one if somebody was not asked. */
  lemma PreparesFailFast<W>(ps: seq<Callbacks<W>>, id: string, w: W, rcs: seq<int>)
    requires |rcs| <= |ps| && forall j :: 0 <= j < |rcs| ==> rcs[j] == 0
    ensures var all := PreparesFrom(ps, id, w, rcs).1;
            && (forall j :: 0 <= j < |all| && all[j] != 0 ==> j == |all| - 1)
            && (|all| < |ps| ==> all != [] && all[|all| - 1] != 0)
    decreases |ps| - |rcs|
  {
    if |rcs| < |ps| {
      var (w1, rc) := ps[|rcs|].prepare(w, id);
      if rc == 0 {
        PreparesFailFast(ps, id, w1, rcs + [rc]);
      }
    }
  }

  // ---------------------------------------------------------------- the whole protocol

  predicate AllZero(rcs: seq<int>) {
    forall i :: 0 <= i < |rcs| ==> rcs[i] == 0
  }

  function Calls(phase: Phase, rcs: seq<int>): seq<Event> {
    seq(|rcs|, i requires 0 <= i < |rcs| => Called(phase, i, rcs[i]))
  }

  /** A log line is written only when the log file could be opened. */
  function Record(hasLog: bool, action: Action): seq<Event> {
    if hasLog then [Logged(action)] else []
  }

  function StatesAfterPrepare(n: nat, rcs: seq<int>): seq<ParticipantState> {
    seq(n, i requires 0 <= i < n =>
      if i >= |rcs| then PartInit else if rcs[i] == 0 then PartPrepared else PartFailed)
  }

  function StatesAfterCommit(rcs: seq<int>): seq<ParticipantState> {
    seq(|rcs|, i requires 0 <= i < |rcs| => if rcs[i] == 0 then PartCommitted else PartFailed)
  }

  function StatesAfterAbort(states: seq<ParticipantState>): seq<ParticipantState> {
    seq(|states|, i requires 0 <= i < |states| => if NeedsAbort(states[i]) then PartAborted else states[i])
  }

  function AbortPath<W>(ps: seq<Callbacks<W>>, states: seq<ParticipantState>, id: string, w: W,
                        hasLog: bool, before: seq<Event>): Outcome<W>
    requires |ps| == |states|
  {
    var (w', es) := Aborts(ps, states, id, w);
    Outcome(-1, w', before + Record(hasLog, AbortStart) + es + Record(hasLog, Aborted), StatesAfterAbort(states))
  }

  function RunCommit<W>(ps: seq<Callbacks<W>>, id: string, w: W, hasLog: bool): Outcome<W> {
    var (w1, pr) := Prepares(ps, id, w);
    var preparing := Record(hasLog, PrepareStart) + Calls(Prepare, pr);
    if AllZero(pr) then
      var (w2, cr) := Commits(ps, id, w1);
      var committing := preparing + Record(hasLog, AllPrepared) + Record(hasLog, CommitStart) + Calls(Commit, cr);
      if AllZero(cr) then
        Outcome(0, w2, committing + Record(hasLog, Committed), StatesAfterCommit(cr))
      else
        AbortPath(ps, StatesAfterCommit(cr), id, w2, hasLog, committing)
    else
      AbortPath(ps, StatesAfterPrepare(|ps|, pr), id, w1, hasLog, preparing)
  }

  // ---------------------------------------------------------------- counting calls

  function CallCount(trace: seq<Event>, phase: Phase, i: nat): nat {
    if trace == [] then 0
    else (if trace[0].Called? && trace[0].phase == phase && trace[0].index == i then 1 else 0)
         + CallCount(trace[1..], phase, i)
  }

  lemma CallCountConcat(a: seq<Event>, b: seq<Event>, phase: Phase, i: nat)
    ensures CallCount(a + b, phase, i) == CallCount(a, phase, i) + CallCount(b, phase, i)
  {
    if a == [] {
      assert a + b == b;
    } else {
      assert (a + b)[1..] == a[1..] + b;
    }
  }

  lemma CallCountOfCalls(rcs: seq<int>, made: Phase, phase: Phase, i: nat)
    ensures CallCount(Calls(made, rcs), phase, i) == if made == phase && i < |rcs| then 1 else 0
  {
    if rcs == [] {
    } else {
      var init := rcs[..|rcs| - 1];
      var last := [Called(made, |rcs| - 1, rcs[|rcs| - 1])];
      assert Calls(made, rcs) == Calls(made, init) + last;
      CallCountConcat(Calls(made, init), last, phase, i);
      CallCountOfCalls(init, made, phase, i);
    }
  }

  lemma CallCountOfAbortsFrom<W>(ps: seq<Callbacks<W>>, states: seq<ParticipantState>, id: string, w: W, from: nat,
                                 done: seq<Event>, phase: Phase, i: nat)
    requires from <= |ps| == |states|
    ensures CallCount(AbortsFrom(ps, states, id, w, from, done).1, phase, i)
            == CallCount(done, phase, i)
               + if phase == Abort && from <= i < |ps| && NeedsAbort(states[i]) then 1 else 0
    decreases |ps| - from
  {
    if from < |ps| {
      if NeedsAbort(states[from]) {
        var (w1, rc) := ps[from].abort(w, id);
        CallCountConcat(done, [Called(Abort, from, rc)], phase, i);
        CallCountOfAbortsFrom(ps, states, id, w1, from + 1, done + [Called(Abort, from, rc)], phase, i);
      } else {
        CallCountOfAbortsFrom(ps, states, id, w, from + 1, done, phase, i);
      }
    }
  }

  lemma AbortsAreAborts<W>(ps: seq<Callbacks<W>>, states: seq<ParticipantState>, id: string, w: W, from: nat,
                           done: seq<Event>)
    requires from <= |ps| == |states|
    requires forall e :: e in done ==> e.Called? && e.phase == Abort
    ensures forall e :: e in AbortsFrom(ps, states, id, w, from, done).1 ==> e.Called? && e.phase == Abort
    decreases |ps| - from
  {
    if from < |ps| {
      if NeedsAbort(states[from]) {
        var (w1, rc) := ps[from].abort(w, id);
        AbortsAreAborts(ps, states, id, w1, from + 1, done + [Called(Abort, from, rc)]);
      } else {
        AbortsAreAborts(ps, states, id, w, from + 1, done);
      }
    }
  }

  lemma CallCountOfAbortPath<W>(ps: seq<Callbacks<W>>, states: seq<ParticipantState>, id: string, w: W,
                                hasLog: bool, before: seq<Event>, phase: Phase, i: nat)
    requires |ps| == |states|
    ensures CallCount(AbortPath(ps, states, id, w, hasLog, before).trace, phase, i)
            == CallCount(before, phase, i) + if phase == Abort && i < |ps| && NeedsAbort(states[i]) then 1 else 0
  {
    var es := Aborts(ps, states, id, w).1;
    CallCountConcat(before, Record(hasLog, AbortStart), phase, i);
    CallCountConcat(before + Record(hasLog, AbortStart), es, phase, i);
    CallCountConcat(before + Record(hasLog, AbortStart) + es, Record(hasLog, Aborted), phase, i);
    CallCountOfAbortsFrom(ps, states, id, w, 0, [], phase, i);
  }

  // ---------------------------------------------------------------- exact outcome

  /** The protocol stopped in phase one at participant `k`. */
  ghost predicate StoppedAt<W>(o: Outcome<W>, n: nat, k: nat) {
    && k < n == |o.states|
    && o.rc == -1
    && (exists rc :: rc != 0 && Called(Prepare, k, rc) in o.trace)
    && forall i: nat :: i < n ==>
         && CallCount(o.trace, Prepare, i) == (if i <= k then 1 else 0)
         && CallCount(o.trace, Commit, i) == 0
         && CallCount(o.trace, Abort, i) == (if i <= k then 1 else 0)
         && o.states[i] == (if i <= k then PartAborted else PartInit)
         && (i < k ==> Called(Prepare, i, 0) in o.trace)
  }

  /** Everybody prepared, so every commit ran, and participant `i` ended as its own commit decided. */
  ghost predicate WentToCommit<W>(o: Outcome<W>, n: nat) {
    && n == |o.states|
    && (forall i: nat :: i < n ==>
         && Called(Prepare, i, 0) in o.trace
         && CallCount(o.trace, Prepare, i) == 1
         && CallCount(o.trace, Commit, i) == 1
         && CallCount(o.trace, Abort, i) == (if Called(Commit, i, 0) in o.trace then 0 else 1)
         && o.states[i] == (if Called(Commit, i, 0) in o.trace then PartCommitted else PartAborted))
    && (o.rc == 0 || o.rc == -1)
    && (o.rc == 0 <==> forall i: nat :: i < n ==> Called(Commit, i, 0) in o.trace)
  }

  lemma CalledOnce(rcs: seq<int>, phase: Phase)
    ensures forall i: nat, rc :: Called(phase, i, rc) in Calls(phase, rcs) <==> i < |rcs| && rcs[i] == rc
  {
    forall i: nat, rc
      ensures Called(phase, i, rc) in Calls(phase, rcs) <==> i < |rcs| && rcs[i] == rc
    {
      if i < |rcs| && rcs[i] == rc {
        assert Calls(phase, rcs)[i] == Called(phase, i, rc);
      }
    }
  }

  lemma CountsUpToCommit(pr: seq<int>, cr: seq<int>, hasLog: bool, phase: Phase, i: nat)
    ensures CallCount(Record(hasLog, PrepareStart) + Calls(Prepare, pr), phase, i)
            == if phase == Prepare && i < |pr| then 1 else 0
    ensures CallCount(Record(hasLog, PrepareStart) + Calls(Prepare, pr) + Record(hasLog, AllPrepared)
                      + Record(hasLog, CommitStart) + Calls(Commit, cr), phase, i)
            == if phase == Prepare && i < |pr| then 1 else if phase == Commit && i < |cr| then 1 else 0
  {
    var a := Record(hasLog, PrepareStart) + Calls(Prepare, pr);
    CallCountConcat(Record(hasLog, PrepareStart), Calls(Prepare, pr), phase, i);
    CallCountConcat(a, Record(hasLog, AllPrepared), phase, i);
    CallCountConcat(a + Record(hasLog, AllPrepared), Record(hasLog, CommitStart), phase, i);
    CallCountConcat(a + Record(hasLog, AllPrepared) + Record(hasLog, CommitStart), Calls(Commit, cr), phase, i);
    CallCountOfCalls(pr, Prepare, phase, i);
    CallCountOfCalls(cr, Commit, phase, i);
  }

  /** Which calls are in the trace, with which return codes. */
  lemma CallsInTrace<W>(ps: seq<Callbacks<W>>, id: string, w: W, hasLog: bool)
    ensures var o := RunCommit(ps, id, w, hasLog);
            var (w1, pr) := Prepares(ps, id, w);
            var cr := Commits(ps, id, w1).1;
            && (forall i: nat, rc :: Called(Prepare, i, rc) in o.trace <==> i < |pr| && pr[i] == rc)
            && (forall i: nat, rc :: Called(Commit, i, rc) in o.trace <==> AllZero(pr) && i < |cr| && cr[i] == rc)
  {
    PreparesFailFast(ps, id, w, []);
    var (w1, pr) := Prepares(ps, id, w);
    var (w2, cr) := Commits(ps, id, w1);
    CalledOnce(pr, Prepare);
    CalledOnce(cr, Commit);
    AbortsAreAborts(ps, StatesAfterPrepare(|ps|, pr), id, w1, 0, []);
    AbortsAreAborts(ps, StatesAfterCommit(cr), id, w2, 0, []);
  }

  /** How often each call is in the trace. */
  lemma CountsInTrace<W>(ps: seq<Callbacks<W>>, id: string, w: W, hasLog: bool, phase: Phase, i: nat)
    requires i < |ps|
    ensures var o := RunCommit(ps, id, w, hasLog);
            var (w1, pr) := Prepares(ps, id, w);
            var cr := Commits(ps, id, w1).1;
            CallCount(o.trace, phase, i)
            == match phase
               case Prepare => if i < |pr| then 1 else 0
               case Commit => if AllZero(pr) then 1 else 0
               case Abort => if (if AllZero(pr) then cr[i] != 0 else i < |pr|) then 1 else 0
  {
    PreparesFailFast(ps, id, w, []);
    var (w1, pr) := Prepares(ps, id, w);
    var (w2, cr) := Commits(ps, id, w1);
    var preparing := Record(hasLog, PrepareStart) + Calls(Prepare, pr);
    var committing := preparing + Record(hasLog, AllPrepared) + Record(hasLog, CommitStart) + Calls(Commit, cr);
    CountsUpToCommit(pr, cr, hasLog, phase, i);
    if !AllZero(pr) {
      CallCountOfAbortPath(ps, StatesAfterPrepare(|ps|, pr), id, w1, hasLog, preparing, phase, i);
    } else if !AllZero(cr) {
      CallCountOfAbortPath(ps, StatesAfterCommit(cr), id, w2, hasLog, committing, phase, i);
    } else {
      CallCountConcat(committing, Record(hasLog, Committed), phase, i);
    }
  }

  /** Everything about an outcome that its return codes fix. */
  ghost predicate Decided<W>(o: Outcome<W>, n: nat, pr: seq<int>, cr: seq<int>) {
    && |pr| <= n == |cr| == |o.states|
    && (forall i: nat, rc :: Called(Prepare, i, rc) in o.trace <==> i < |pr| && pr[i] == rc)
    && (forall i: nat, rc :: Called(Commit, i, rc) in o.trace <==> AllZero(pr) && i < n && cr[i] == rc)
    && (forall i: nat :: i < n ==>
          && CallCount(o.trace, Prepare, i) == (if i < |pr| then 1 else 0)
          && CallCount(o.trace, Commit, i) == (if AllZero(pr) then 1 else 0)
          && CallCount(o.trace, Abort, i) == (if (if AllZero(pr) then cr[i] != 0 else i < |pr|) then 1 else 0)
          && o.states[i] == if AllZero(pr) then (if cr[i] == 0 then PartCommitted else PartAborted)
                            else if i < |pr| then PartAborted else PartInit)
    && o.rc == if AllZero(pr) && AllZero(cr) then 0 else -1
  }

  lemma OutcomeDecided<W>(ps: seq<Callbacks<W>>, id: string, w: W, hasLog: bool)
    ensures var (w1, pr) := Prepares(ps, id, w);
            Decided(RunCommit(ps, id, w, hasLog), |ps|, pr, Commits(ps, id, w1).1)
  {
    var o := RunCommit(ps, id, w, hasLog);
    var (w1, pr) := Prepares(ps, id, w);
    var cr := Commits(ps, id, w1).1;
    CallsInTrace(ps, id, w, hasLog);
    forall i: nat | i < |ps|
      ensures CallCount(o.trace, Prepare, i) == (if i < |pr| then 1 else 0)
      ensures CallCount(o.trace, Commit, i) == (if AllZero(pr) then 1 else 0)
      ensures CallCount(o.trace, Abort, i) == (if (if AllZero(pr) then cr[i] != 0 else i < |pr|) then 1 else 0)
    {
      CountsInTrace(ps, id, w, hasLog, Prepare, i);
      CountsInTrace(ps, id, w, hasLog, Commit, i);
      CountsInTrace(ps, id, w, hasLog, Abort, i);
    }
  }

  lemma DecidedIsExact<W>(o: Outcome<W>, n: nat, pr: seq<int>, cr: seq<int>)
    requires Decided(o, n, pr, cr)
    requires forall j :: 0 <= j < |pr| && pr[j] != 0 ==> j == |pr| - 1
    requires |pr| < n ==> !AllZero(pr)
    ensures if AllZero(pr) then WentToCommit(o, n) else StoppedAt(o, n, |pr| - 1)
  {
    if !AllZero(pr) {
      assert pr[|pr| - 1] != 0;
      assert Called(Prepare, |pr| - 1, pr[|pr| - 1]) in o.trace;
    }
  }

  /** For arbitrary callbacks `txn_commit` either stops at one failed prepare or goes on to every commit. */
  lemma ExactOutcome<W>(ps: seq<Callbacks<W>>, id: string, w: W, hasLog: bool)
    ensures var o := RunCommit(ps, id, w, hasLog);
            var pr := Prepares(ps, id, w).1;
            if AllZero(pr) then WentToCommit(o, |ps|) else StoppedAt(o, |ps|, |pr| - 1)
  {
    var (w1, pr) := Prepares(ps, id, w);
    PreparesFailFast(ps, id, w, []);
    OutcomeDecided(ps, id, w, hasLog);
    DecidedIsExact(RunCommit(ps, id, w, hasLog), |ps|, pr, Commits(ps, id, w1).1);
  }

  /** A mixed outcome arises exactly when some but not all commits failed. */
  lemma MixedOutcome<W>(ps: seq<Callbacks<W>>, id: string, w: W, hasLog: bool)
    ensures var o := RunCommit(ps, id, w, hasLog);
            (PartCommitted in o.states && PartAborted in o.states)
            <==> && (exists i: nat, rc :: rc == 0 && Called(Commit, i, rc) in o.trace)
                 && (exists i: nat, rc :: rc != 0 && Called(Commit, i, rc) in o.trace)
  {
    PreparesFailFast(ps, id, w, []);
    OutcomeDecided(ps, id, w, hasLog);
    var o := RunCommit(ps, id, w, hasLog);
    var (w1, pr) := Prepares(ps, id, w);
    var cr := Commits(ps, id, w1).1;
    assert forall i: nat :: i < |ps| && AllZero(pr) ==> Called(Commit, i, cr[i]) in o.trace;
  }

  // ---------------------------------------------------------------- two participants

  lemma PreparesTwo<W>(a: Callbacks<W>, b: Callbacks<W>, id: string, w: W)
    ensures var (w1, p1) := a.prepare(w, id);
            var (w2, p2) := b.prepare(w1, id);
            Prepares([a, b], id, w) == if p1 != 0 then (w1, [p1]) else (w2, [p1, p2])
  {
    var (w1, p1) := a.prepare(w, id);
    var (w2, p2) := b.prepare(w1, id);
    assert [] + [p1] == [p1] && [p1] + [p2] == [p1, p2];
    assert p1 == 0 ==> PreparesFrom([a, b], id, w1, [p1]) == (w2, [p1, p2]);
  }

  lemma CommitsTwo<W>(a: Callbacks<W>, b: Callbacks<W>, id: string, w: W)
    ensures var (w1, r1) := a.commit(w, id);
            var (w2, r2) := b.commit(w1, id);
            Commits([a, b], id, w) == (w2, [r1, r2])
  {
    var (w1, r1) := a.commit(w, id);
    var (w2, r2) := b.commit(w1, id);
    assert [] + [r1] == [r1] && [r1] + [r2] == [r1, r2];
    assert CommitsFrom([a, b], id, w1, [r1]) == (w2, [r1, r2]);
  }

  lemma AbortsTwo<W>(a: Callbacks<W>, b: Callbacks<W>, s: ParticipantState, t: ParticipantState, id: string, w: W)
    ensures var w1 := if NeedsAbort(s) then a.abort(w, id).0 else w;
            Aborts([a, b], [s, t], id, w).0 == if NeedsAbort(t) then b.abort(w1, id).0 else w1
  {
    var w1 := if NeedsAbort(s) then a.abort(w, id).0 else w;
    var done := if NeedsAbort(s) then [] + [Called(Abort, 0, a.abort(w, id).1)] else [];
    var w2 := if NeedsAbort(t) then b.abort(w1, id).0 else w1;
    var done' := if NeedsAbort(t) then done + [Called(Abort, 1, b.abort(w1, id).1)] else done;
    assert AbortsFrom([a, b], [s, t], id, w2, 2, done').0 == w2;
    assert AbortsFrom([a, b], [s, t], id, w1, 1, done).0 == w2;
  }

  /** A participant that always votes yes and answers its commit with `rc`. */
  function Answering(rc: int): Callbacks<int> {
    Callbacks((w: int, id: string) => (w, 0), (w: int, id: string) => (w, rc), (w: int, id: string) => (w, 0))
  }

  /** All or none does fail: two participants vote yes, one commits, the other does not. */
  lemma MixedHappens(id: string, hasLog: bool)
    ensures var o := RunCommit([Answering(0), Answering(-1)], id, 0, hasLog);
            o.rc == -1 && o.states == [PartCommitted, PartAborted]
  {
    var ps := [Answering(0), Answering(-1)];
    PreparesTwo(ps[0], ps[1], id, 0);
    CommitsTwo(ps[0], ps[1], id, 0);
    assert AllZero([0, 0]) && [0, -1][1] != 0;
    assert StatesAfterCommit([0, -1]) == [PartCommitted, PartFailed];
  }

  // ---------------------------------------------------------------- write-ahead rule

  /** What a reader of the log may conclude about the callbacks after a crash that left `seen` behind. */
  ghost predicate LogIsTruthful(seen: seq<Event>, whole: seq<Event>, n: nat) {
    // a commit callback runs only after COMMIT_START is in the log
    && (Logged(CommitStart) !in seen ==> forall i: nat, rc :: Called(Commit, i, rc) !in seen)
    // COMMITTED in the log: every participant's commit returned 0
    && (Logged(Committed) in seen ==> forall i: nat :: i < n ==> Called(Commit, i, 0) in seen)
    // ABORT_START without COMMIT_START: nobody has committed and nobody will
    && (Logged(AbortStart) in seen && Logged(CommitStart) !in seen ==>
          forall i: nat, rc :: Called(Commit, i, rc) !in whole)
    // COMMIT_START in the log: every participant has voted yes
    && (Logged(CommitStart) in seen ==> forall i: nat :: i < n ==> Called(Prepare, i, 0) in seen)
    // an abort callback runs only after ABORT_START is in the log
    && (Logged(AbortStart) !in seen ==> forall i: nat, rc :: Called(Abort, i, rc) !in seen)
  }

  ghost predicate WriteAhead<W>(ps: seq<Callbacks<W>>, id: string, w: W, hasLog: bool) {
    var t := RunCommit(ps, id, w, hasLog).trace;
    forall k :: 0 <= k <= |t| ==> LogIsTruthful(t[..k], t, |ps|)
  }

  /** Reading the log along `calls` then `tail` is truthful when `calls` holds only prepare calls. */
  lemma TruthfulBeforeDecision(calls: seq<Event>, tail: seq<Event>, n: nat, k: nat)
    requires forall e :: e in calls ==> e.Called? && e.phase == Prepare
    requires tail != [] && tail[0] == Logged(AbortStart)
    requires forall e :: e in tail[1..] ==> (e.Called? && e.phase == Abort) || e == Logged(Aborted)
    requires k <= 1 + |calls| + |tail|
    ensures var t := [Logged(PrepareStart)] + calls + tail; LogIsTruthful(t[..k], t, n)
  {
    var head := [Logged(PrepareStart)] + calls;
    var t := head + tail;
    assert forall e :: e in tail ==> e == tail[0] || e in tail[1..];
    assert forall e :: e in t[..k] ==> e in head || e in tail;
    if k <= |head| {
      assert t[..k] == head[..k];
      assert forall e :: e in head[..k] ==> e in head;
    } else {
      assert t[..k][|head|] == Logged(AbortStart);
    }
  }

  lemma PrefixOfConcat(a: seq<Event>, b: seq<Event>, k: nat)
    requires k <= |a| + |b|
    ensures k <= |a| ==> (a + b)[..k] == a[..k]
    ensures k > |a| ==> (a + b)[..k] == a + b[..k - |a|]
    ensures forall e :: e in (a + b)[..k] ==> e in a || e in b
  {
  }

  ghost predicate Within(a: seq<Event>, b: seq<Event>) {
    forall e :: e in a ==> e in b
  }

  /** A prefix of `a + b + c` ends inside `a`, inside `b` or inside `c`. */
  lemma WherePrefixEnds(a: seq<Event>, b: seq<Event>, c: seq<Event>, k: nat)
    requires b != [] && c != [] && k <= |a| + |b| + |c|
    ensures var seen := (a + b + c)[..k];
            || Within(seen, a)
            || (Within(a, seen) && b[0] in seen && Within(seen, a + b))
            || (Within(a + b, seen) && c[0] in seen && Within(seen, a + b + c))
  {
    PrefixOfConcat(a + b, c, k);
    if k <= |a + b| {
      PrefixOfConcat(a, b, k);
      if k > |a| {
        assert (a + b)[..k][|a|] == b[0];
      }
    } else {
      assert (a + b + c)[..k][|a + b|] == c[0];
    }
  }

  lemma TruthfulAfterDecision(calls: seq<Event>, commits: seq<Event>, tail: seq<Event>, n: nat, k: nat)
    requires forall e :: e in calls ==> e.Called? && e.phase == Prepare
    requires forall i: nat :: i < n ==> Called(Prepare, i, 0) in calls
    requires forall e :: e in commits ==> e.Called? && e.phase == Commit
    requires tail != []
    requires || (tail == [Logged(Committed)] && forall i: nat :: i < n ==> Called(Commit, i, 0) in commits)
             || (tail[0] == Logged(AbortStart)
                 && forall e :: e in tail[1..] ==> (e.Called? && e.phase == Abort) || e == Logged(Aborted))
    requires k <= 3 + |calls| + |commits| + |tail|
    ensures var t := [Logged(PrepareStart)] + calls + [Logged(AllPrepared), Logged(CommitStart)] + commits + tail;
            LogIsTruthful(t[..k], t, n)
  {
    var a := [Logged(PrepareStart)] + calls + [Logged(AllPrepared)];
    var b := [Logged(CommitStart)] + commits;
    WherePrefixEnds(a, b, tail, k);
    assert a + b + tail == [Logged(PrepareStart)] + calls + [Logged(AllPrepared), Logged(CommitStart)] + commits + tail;
    var seen := (a + b + tail)[..k];
    assert forall e :: e in tail ==> e == tail[0] || e in tail[1..];
    if Within(seen, a) {
    } else if Within(seen, a + b) {
    } else {
    }
  }

  /** What follows the calls of a run with a log. */
  function Tail<W>(ps: seq<Callbacks<W>>, states: seq<ParticipantState>, id: string, w: W): seq<Event>
    requires |ps| == |states|
  {
    [Logged(AbortStart)] + Aborts(ps, states, id, w).1 + [Logged(Aborted)]
  }

  lemma TailHoldsAborts<W>(ps: seq<Callbacks<W>>, states: seq<ParticipantState>, id: string, w: W)
    requires |ps| == |states|
    ensures forall e :: e in Tail(ps, states, id, w)[1..] ==> (e.Called? && e.phase == Abort) || e == Logged(Aborted)
  {
    AbortsAreAborts(ps, states, id, w, 0, []);
    assert Tail(ps, states, id, w)[1..] == Aborts(ps, states, id, w).1 + [Logged(Aborted)];
  }

  lemma TruthfulWhenStopped<W>(ps: seq<Callbacks<W>>, id: string, w: W, k: nat)
    requires !AllZero(Prepares(ps, id, w).1)
    requires k <= |RunCommit(ps, id, w, true).trace|
    ensures var t := RunCommit(ps, id, w, true).trace; LogIsTruthful(t[..k], t, |ps|)
  {
    PreparesFailFast(ps, id, w, []);
    var (w1, pr) := Prepares(ps, id, w);
    var tail := Tail(ps, StatesAfterPrepare(|ps|, pr), id, w1);
    TailHoldsAborts(ps, StatesAfterPrepare(|ps|, pr), id, w1);
    assert RunCommit(ps, id, w, true).trace == [Logged(PrepareStart)] + Calls(Prepare, pr) + tail;
    TruthfulBeforeDecision(Calls(Prepare, pr), tail, |ps|, k);
  }

  /** The end of a run in which everybody prepared. */
  function Ending<W>(ps: seq<Callbacks<W>>, id: string, w: W): seq<Event> {
    var (w2, cr) := Commits(ps, id, w);
    if AllZero(cr) then [Logged(Committed)] else Tail(ps, StatesAfterCommit(cr), id, w2)
  }

  lemma TraceWhenPrepared<W>(ps: seq<Callbacks<W>>, id: string, w: W)
    requires AllZero(Prepares(ps, id, w).1)
    ensures var (w1, pr) := Prepares(ps, id, w);
            RunCommit(ps, id, w, true).trace
            == [Logged(PrepareStart)] + Calls(Prepare, pr) + [Logged(AllPrepared), Logged(CommitStart)]
               + Calls(Commit, Commits(ps, id, w1).1) + Ending(ps, id, w1)
  {
  }

  lemma TruthfulWhenPrepared<W>(ps: seq<Callbacks<W>>, id: string, w: W, k: nat)
    requires AllZero(Prepares(ps, id, w).1)
    requires k <= |RunCommit(ps, id, w, true).trace|
    ensures var t := RunCommit(ps, id, w, true).trace; LogIsTruthful(t[..k], t, |ps|)
  {
    PreparesFailFast(ps, id, w, []);
    var (w1, pr) := Prepares(ps, id, w);
    var (w2, cr) := Commits(ps, id, w1);
    CalledOnce(pr, Prepare);
    CalledOnce(cr, Commit);
    TailHoldsAborts(ps, StatesAfterCommit(cr), id, w2);
    TraceWhenPrepared(ps, id, w);
    TruthfulAfterDecision(Calls(Prepare, pr), Calls(Commit, cr), Ending(ps, id, w1), |ps|, k);
  }

  /** With a log, every crash point of every run obeys the write-ahead rule. */
  lemma WriteAheadWithLog<W>(ps: seq<Callbacks<W>>, id: string, w: W)
    ensures WriteAhead(ps, id, w, true)
  {
    var t := RunCommit(ps, id, w, true).trace;
    forall k: nat | k <= |t|
      ensures LogIsTruthful(t[..k], t, |ps|)
    {
      if AllZero(Prepares(ps, id, w).1) {
        TruthfulWhenPrepared(ps, id, w, k);
      } else {
        TruthfulWhenStopped(ps, id, w, k);
      }
    }
  }

  lemma NothingLogged<W>(ps: seq<Callbacks<W>>, id: string, w: W)
    ensures forall e :: e in RunCommit(ps, id, w, false).trace ==> e.Called?
  {
    var (w1, pr) := Prepares(ps, id, w);
    var (w2, cr) := Commits(ps, id, w1);
    AbortsAreAborts(ps, StatesAfterPrepare(|ps|, pr), id, w1, 0, []);
    AbortsAreAborts(ps, StatesAfterCommit(cr), id, w2, 0, []);
  }

  lemma CountedIsPresent(trace: seq<Event>, phase: Phase, i: nat)
    requires CallCount(trace, phase, i) > 0
    ensures exists rc :: Called(phase, i, rc) in trace
  {
    if trace[0].Called? && trace[0].phase == phase && trace[0].index == i {
      assert Called(phase, i, trace[0].rc) in trace;
    } else {
      CountedIsPresent(trace[1..], phase, i);
    }
  }

  /** The rule holds exactly when the log file is open, or there is no participant to drive. */
  lemma WriteAheadIff<W>(ps: seq<Callbacks<W>>, id: string, w: W, hasLog: bool)
    ensures WriteAhead(ps, id, w, hasLog) <==> hasLog || ps == []
  {
    var t := RunCommit(ps, id, w, hasLog).trace;
    if hasLog {
      WriteAheadWithLog(ps, id, w);
    } else {
      NothingLogged(ps, id, w);
      assert t[..|t|] == t;
      if ps == [] {
        assert t == [];
      } else {
        ExactOutcome(ps, id, w, false);
        if AllZero(Prepares(ps, id, w).1) {
          CountedIsPresent(t, Commit, 0);
        } else {
          CountedIsPresent(t, Abort, 0);
        }
        assert !LogIsTruthful(t[..|t|], t, |ps|);
      }
    }
  }
}
