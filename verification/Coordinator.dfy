/**
  The transaction coordinator object (server/transaction_coordinator.c): an array of active
  transactions compacted in place, a log, and `txn_commit` / `txn_abort`.

  Every locked region is one method whose effect on the array and the log is one `TxnLog.Apply` step.
  `Commit` gives the lock back around the callbacks: `OtherThreads` stands for whatever the other
  transactions do to the coordinator meanwhile.
 */
module Coordinator {
  import opened TwoPhase
  import opened TxnLog
  import Runs

  const MAX_PARTICIPANTS := 8
  const MAX_PARTICIPANT_NAME_LEN := 32

  /** What the 32-byte field keeps of a name. */
  function StoredName(name: string): (r: string)
    ensures r <= name && |r| < MAX_PARTICIPANT_NAME_LEN && (|name| < MAX_PARTICIPANT_NAME_LEN ==> r == name)
  {
    if |name| < MAX_PARTICIPANT_NAME_LEN then name else name[..MAX_PARTICIPANT_NAME_LEN - 1]
  }

  datatype Participant<!W> = Participant(name: string, state: ParticipantState, calls: Callbacks<W>)

  function CallbacksOf<W>(ps: seq<Participant<W>>): seq<Callbacks<W>> {
    seq(|ps|, i requires 0 <= i < |ps| => ps[i].calls)
  }

  function StatesOf<W>(ps: seq<Participant<W>>): seq<ParticipantState> {
    seq(|ps|, i requires 0 <= i < |ps| => ps[i].state)
  }

  /** States in which nobody escapes the abort loop. */
  function Everyone(n: nat): seq<ParticipantState> {
    seq(n, _ => PartPrepared)
  }

  /** One abort call to each of the first n, in order. */
  ghost predicate EveryoneCalled(events: seq<Event>, n: nat) {
    |events| == n && forall i :: 0 <= i < n ==> events[i].Called? && events[i].phase == Abort && events[i].index == i
  }

  /** The world once the first n have been aborted, one after the other. */
  function WorldAfterAborts<W>(ps: seq<Callbacks<W>>, id: string, w: W, n: nat): W
    requires n <= |ps|
  {
    if n == 0 then w else ps[n - 1].abort(WorldAfterAborts(ps, id, w, n - 1), id).0
  }

  /** Ids being distinct, removing one leaves none of it. */
  lemma WithoutIsGone(entries: seq<Entry>, id: string)
    requires forall i, j :: 0 <= i < j < |entries| ==> entries[i].id != entries[j].id
    ensures !Has(Without(entries, id), id)
  {
    if Has(entries, id) {
      LookupWithout(entries, id, id);
    }
  }

  lemma SameButStates<W>(ps: seq<Participant<W>>, qs: seq<Participant<W>>, states: seq<ParticipantState>)
    requires |ps| == |qs| == |states|
    requires forall j :: 0 <= j < |ps| ==> qs[j] == ps[j].(state := states[j])
    ensures CallbacksOf(qs) == CallbacksOf(ps) && StatesOf(qs) == states
  {
  }

  lemma AllZeroAppend(rcs: seq<int>, rc: int)
    ensures AllZero(rcs + [rc]) <==> AllZero(rcs) && rc == 0
  {
    assert (rcs + [rc])[|rcs|] == rc;
    assert forall j :: 0 <= j < |rcs| ==> (rcs + [rc])[j] == rcs[j];
  }

  lemma CallsAppend(phase: Phase, rcs: seq<int>, rc: int)
    ensures Calls(phase, rcs + [rc]) == Calls(phase, rcs) + [Called(phase, |rcs|, rc)]
  {
  }

  class Transaction<!W> {
    const id: string
    var state: TxnState
    var participants: seq<Participant<W>>
    ghost var trace: seq<Event>            // the log lines and callback calls made for it so far

    constructor (id: string)
      ensures this.id == id && state == TxnInit && participants == [] && trace == []
    {
      this.id := id;
      state := TxnInit;
      participants, trace := [], [];
    }

    /** txn_register_participant */
    method Register(name: string, calls: Callbacks<W>) returns (rc: int)
      modifies this`participants
      ensures rc == if |old(participants)| < MAX_PARTICIPANTS then 0 else -1
      ensures participants == if rc == 0 then old(participants) + [Participant(StoredName(name), PartInit, calls)]
                              else old(participants)
    {
      if |participants| >= MAX_PARTICIPANTS {
        return -1;
      }
      participants := participants + [Participant(StoredName(name), PartInit, calls)];
      return 0;
    }

    /** Phase one: prepare in order, stop at the first failure. */
    method PrepareAll(w0: W) returns (ok: bool, w: W, ghost rcs: seq<int>)
      requires forall i :: 0 <= i < |participants| ==> participants[i].state == PartInit
      modifies this`participants, this`trace
      ensures CallbacksOf(participants) == CallbacksOf(old(participants))
      ensures (w, rcs) == Prepares(CallbacksOf(participants), id, w0)
      ensures trace == old(trace) + Calls(Prepare, rcs)
      ensures ok <==> AllZero(rcs)
      ensures StatesOf(participants) == StatesAfterPrepare(|participants|, rcs)
    {
      ghost var ps := participants;
      ghost var cs := CallbacksOf(ps);
      var n := |participants|;
      ok, w, rcs := true, w0, [];
      var i := 0;
      while i < n
        invariant 0 <= i <= n == |participants| && |rcs| == i
        invariant ok && AllZero(rcs)
        invariant forall j :: 0 <= j < n ==>
                    participants[j] == ps[j].(state := if j < i then PartPrepared else PartInit)
        invariant Prepares(cs, id, w0) == PreparesFrom(cs, id, w, rcs)
        invariant trace == old(trace) + Calls(Prepare, rcs)
      {
        assert cs[i] == participants[i].calls;
        var (w', rc) := participants[i].calls.prepare(w, id);
        trace := trace + [Called(Prepare, i, rc)];
        AllZeroAppend(rcs, rc);
        CallsAppend(Prepare, rcs, rc);
        w, rcs := w', rcs + [rc];
        if rc == 0 {
          participants := participants[i := participants[i].(state := PartPrepared)];
        } else {
          participants := participants[i := participants[i].(state := PartFailed)];
          ok := false;
          break;
        }
        i := i + 1;
      }
      SameButStates(ps, participants, StatesAfterPrepare(n, rcs));
    }

    /** Phase two: commit every prepared participant, whatever the others answer. */
    method CommitAll(w0: W) returns (ok: bool, w: W, ghost rcs: seq<int>)
      requires forall i :: 0 <= i < |participants| ==> participants[i].state == PartPrepared
      modifies this`participants, this`trace
      ensures CallbacksOf(participants) == CallbacksOf(old(participants))
      ensures (w, rcs) == Commits(CallbacksOf(participants), id, w0)
      ensures trace == old(trace) + Calls(Commit, rcs)
      ensures ok <==> AllZero(rcs)
      ensures StatesOf(participants) == StatesAfterCommit(rcs)
    {
      ghost var ps := participants;
      ghost var cs := CallbacksOf(participants);
      var n := |participants|;
      ok, w, rcs := true, w0, [];
      for i := 0 to n
        invariant n == |participants| && |rcs| == i
        invariant ok <==> AllZero(rcs)
        invariant forall j :: i <= j < n ==> participants[j] == ps[j]
        invariant forall j :: 0 <= j < i ==> participants[j] == ps[j].(state := StatesAfterCommit(rcs)[j])
        invariant Commits(cs, id, w0) == CommitsFrom(cs, id, w, rcs)
        invariant trace == old(trace) + Calls(Commit, rcs)
      {
        assert cs[i] == participants[i].calls;
        if participants[i].state == PartPrepared {
          var (w', rc) := participants[i].calls.commit(w, id);
          trace := trace + [Called(Commit, i, rc)];
          AllZeroAppend(rcs, rc);
          CallsAppend(Commit, rcs, rc);
          w, rcs := w', rcs + [rc];
          if rc == 0 {
            participants := participants[i := participants[i].(state := PartCommitted)];
          } else {
            participants := participants[i := participants[i].(state := PartFailed)];
            ok := false;
          }
        }
      }
      SameButStates(ps, participants, StatesAfterCommit(rcs));
    }

    /** The abort path: abort every participant that prepared or failed. */
    method AbortUnfinished(w0: W) returns (w: W, ghost events: seq<Event>)
      modifies this`participants, this`trace
      ensures CallbacksOf(participants) == CallbacksOf(old(participants))
      ensures (w, events) == Aborts(CallbacksOf(participants), StatesOf(old(participants)), id, w0)
      ensures trace == old(trace) + events
      ensures StatesOf(participants) == StatesAfterAbort(StatesOf(old(participants)))
    {
      ghost var ps := participants;
      ghost var cs := CallbacksOf(participants);
      ghost var st := StatesOf(participants);
      var n := |participants|;
      w, events := w0, [];
      for i := 0 to n
        invariant n == |participants|
        invariant forall j :: i <= j < n ==> participants[j] == ps[j]
        invariant forall j :: 0 <= j < i ==> participants[j] == ps[j].(state := StatesAfterAbort(st)[j])
        invariant Aborts(cs, st, id, w0) == AbortsFrom(cs, st, id, w, i, events)
        invariant trace == old(trace) + events
      {
        if participants[i].state == PartPrepared || participants[i].state == PartFailed {
          assert participants[i].calls == cs[i];
          var (w', rc) := participants[i].calls.abort(w, id);
          trace := trace + [Called(Abort, i, rc)];
          w, events := w', events + [Called(Abort, i, rc)];
          participants := participants[i := participants[i].(state := PartAborted)];
        }
      }
      SameButStates(ps, participants, StatesAfterAbort(st));
    }

    /** The loop of txn_abort: abort everybody, whatever their state. */
    method AbortEveryone(w0: W) returns (w: W, ghost events: seq<Event>)
      modifies this`participants, this`trace
      ensures trace == old(trace) + events
      ensures (w, events) == Aborts(CallbacksOf(old(participants)), Everyone(|old(participants)|), id, w0)
      ensures StatesOf(participants) == seq(|old(participants)|, _ => PartAborted)
      ensures EveryoneCalled(events, |old(participants)|)
      ensures forall i: nat :: i < |old(participants)| ==> CallCount(events, Abort, i) == 1
      ensures w == WorldAfterAborts(CallbacksOf(old(participants)), id, w0, |old(participants)|)
    {
      ghost var cs := CallbacksOf(participants);
      var n := |participants|;
      w, events := w0, [];
      for i := 0 to n
        invariant n == |participants|
        invariant forall j :: i <= j < n ==> participants[j].calls == cs[j]
        invariant forall j :: 0 <= j < i ==> participants[j].state == PartAborted
        invariant Aborts(cs, Everyone(n), id, w0) == AbortsFrom(cs, Everyone(n), id, w, i, events)
        invariant trace == old(trace) + events
        invariant EveryoneCalled(events, i) && w == WorldAfterAborts(cs, id, w0, i)
      {
        assert participants[i].calls == cs[i];
        var (w', rc) := participants[i].calls.abort(w, id);
        trace := trace + [Called(Abort, i, rc)];
        w, events := w', events + [Called(Abort, i, rc)];
        participants := participants[i := participants[i].(state := PartAborted)];
      }
      forall i: nat | i < n ensures CallCount(events, Abort, i) == 1 {
        CallCountOfAbortsFrom(cs, Everyone(n), id, w0, 0, [], Abort, i);
      }
    }
  }

  // ---------------------------------------------------------------- runs with other threads in them

  /** A step other threads may take while `id` is being driven: anything not about `id`, or a refused begin. */
  predicate Foreign(step: Step, id: string) {
    step.id != id || step.BeginTxn?
  }

  /** The steps of a run that drive `id`. */
  function Own(run: seq<Step>, id: string): seq<Step> {
    if run == [] then []
    else Own(run[..|run| - 1], id) + if Foreign(run[|run| - 1], id) then [] else [run[|run| - 1]]
  }

  lemma {:induction false} OwnConcat(a: seq<Step>, b: seq<Step>, id: string)
    ensures Own(a + b, id) == Own(a, id) + Own(b, id)
  {
    if b == [] {
      assert a + b == a;
    } else {
      assert (a + b)[..|a + b| - 1] == a + b[..|b| - 1];
      OwnConcat(a, b[..|b| - 1], id);
    }
  }

  /** What steps leave in the log. */
  function AllActions(steps: seq<Step>): seq<Action> {
    if steps == [] then [] else AllActions(steps[..|steps| - 1]) + Actions(steps[|steps| - 1])
  }

  lemma {:induction false} AllActionsConcat(a: seq<Step>, b: seq<Step>)
    ensures AllActions(a + b) == AllActions(a) + AllActions(b)
  {
    if b == [] {
      assert a + b == a;
    } else {
      assert (a + b)[..|a + b| - 1] == a + b[..|b| - 1];
      AllActionsConcat(a, b[..|b| - 1]);
      ActionsTogether(AllActions(a), AllActions(b[..|b| - 1]), Actions(b[|b| - 1]));
    }
  }

  /** `run` leads from `s0` to `s1`, its steps driving `id` are `own`, and they alone wrote the log lines of `id`. */
  ghost predicate Ran(s0: Sys, s1: Sys, run: seq<Step>, id: string, own: seq<Step>) {
    && IsRun(s0, run) && After(s0, run) == s1
    && Own(run, id) == own
    && LogGrew(s0, s1, id, own)
  }

  ghost predicate LogGrew(s0: Sys, s1: Sys, id: string, own: seq<Step>) {
    && s1.hasLog == s0.hasLog
    && Project(s1.log, id) == Project(s0.log, id) + (if s0.hasLog then AllActions(own) else [])
  }

  lemma {:induction false} LogGrewConcat(s0: Sys, s1: Sys, s2: Sys, id: string, own: seq<Step>, own': seq<Step>)
    requires LogGrew(s0, s1, id, own) && LogGrew(s1, s2, id, own')
    ensures LogGrew(s0, s2, id, own + own')
  {
    AllActionsConcat(own, own');
    if s0.hasLog {
      ActionsTogether(Project(s0.log, id), AllActions(own), AllActions(own'));
    } else {
      assert Project(s0.log, id) + [] == Project(s0.log, id);
    }
  }

  lemma ActionsTogether(a: seq<Action>, b: seq<Action>, c: seq<Action>)
    ensures a + b + c == a + (b + c)
  {
  }

  lemma RanConcat(s0: Sys, s1: Sys, s2: Sys, a: seq<Step>, b: seq<Step>, id: string, own: seq<Step>, own': seq<Step>)
    requires Ran(s0, s1, a, id, own) && Ran(s1, s2, b, id, own')
    ensures Ran(s0, s2, a + b, id, own + own')
  {
    Runs.Concat(Apply, Enabled, s0, a, b);
    OwnConcat(a, b, id);
    LogGrewConcat(s0, s1, s2, id, own, own');
  }

  lemma {:induction false} StepIsRun(s: Sys, step: Step)
    requires Enabled(s, step)
    ensures IsRun(s, [step]) && After(s, [step]) == Apply(s, step)
  {
    Runs.Extend(Apply, Enabled, s, [], step);
    assert [] + [step] == [step];
  }

  lemma {:induction false} OwnOfStep(step: Step)
    requires !step.BeginTxn?
    ensures Own([step], step.id) == [step]
  {
    assert [step][..0] == [];
  }

  lemma {:induction false} StepLogs(s: Sys, step: Step)
    requires !step.BeginTxn?
    ensures LogGrew(s, Apply(s, step), step.id, [step])
  {
    OneStep(step);
    ProjectLines(s.log, step, step.id);
    assert Apply(s, step).log == Write(s, Lines(step));
  }

  lemma {:induction false} RanStep(s: Sys, step: Step)
    requires Enabled(s, step) && !step.BeginTxn?
    ensures Ran(s, Apply(s, step), [step], step.id, [step])
  {
    StepIsRun(s, step);
    OwnOfStep(step);
    StepLogs(s, step);
  }

  /** While `id` is active nobody else writes log lines for it. */
  lemma {:induction false} OthersKeepLog(s: Sys, run: seq<Step>, id: string)
    requires Has(s.active, id) && Distinct(Ids(s.active)) && |s.active| <= MAX_ACTIVE_TRANSACTIONS
    requires IsRun(s, run) && forall step :: step in run ==> Foreign(step, id)
    ensures var t := After(s, run);
            && t.hasLog == s.hasLog && Project(t.log, id) == Project(s.log, id)
            && Has(t.active, id) && Distinct(Ids(t.active)) && |t.active| <= MAX_ACTIVE_TRANSACTIONS
  {
    if run != [] {
      var before, step := run[..|run| - 1], run[|run| - 1];
      assert forall b :: b in before ==> b in run;
      OthersKeepLog(s, before, id);
      assert step in run;
      OtherKeepsLog(After(s, before), step, id);
    }
  }

  lemma OtherKeepsLog(s: Sys, step: Step, id: string)
    requires Has(s.active, id) && Distinct(Ids(s.active)) && |s.active| <= MAX_ACTIVE_TRANSACTIONS
    requires Enabled(s, step) && Foreign(step, id)
    ensures var t := Apply(s, step);
            && t.hasLog == s.hasLog && Project(t.log, id) == Project(s.log, id)
            && Has(t.active, id) && Distinct(Ids(t.active)) && |t.active| <= MAX_ACTIVE_TRANSACTIONS
  {
    if Apply(s, step) != s {
      LookupAfter(s, step, id);
      IdsAfter(s, step);
      ProjectLines(s.log, step, id);
      assert Project(s.log, id) + [] == Project(s.log, id);
    }
  }

  lemma OwnOfForeign(run: seq<Step>, id: string)
    requires forall step :: step in run ==> Foreign(step, id)
    ensures Own(run, id) == []
  {
  }

  lemma Together(a: seq<Event>, b: seq<Event>, c: seq<Event>)
    ensures a + b + c == a + (b + c)
  {
  }

  lemma Reassociate(a: seq<Event>, b: seq<Event>, c: seq<Event>, d: seq<Event>)
    ensures a + (b + c + d) == a + b + c + d
  {
  }

  lemma TwoLines(log: seq<LogLine>, a: LogLine, b: LogLine)
    ensures log + [a] + [b] == log + [a, b]
  {
  }

  function Prefixed<W>(before: seq<Event>, o: Outcome<W>): Outcome<W> {
    o.(trace := before + o.trace)
  }

  /** What is left of `txn_commit` once everybody has prepared. */
  function CommitPart<W>(ps: seq<Callbacks<W>>, id: string, w: W, hasLog: bool): Outcome<W> {
    var (w2, cr) := Commits(ps, id, w);
    Prefixed(Record(hasLog, AllPrepared) + Record(hasLog, CommitStart) + Calls(Commit, cr),
             if AllZero(cr) then Outcome(0, w2, Record(hasLog, Committed), StatesAfterCommit(cr))
             else AbortPath(ps, StatesAfterCommit(cr), id, w2, hasLog, []))
  }

  lemma AbortPathAfter<W>(ps: seq<Callbacks<W>>, states: seq<ParticipantState>, id: string, w: W, hasLog: bool,
                          before: seq<Event>)
    requires |ps| == |states|
    ensures AbortPath(ps, states, id, w, hasLog, before)
            == Prefixed(before, AbortPath(ps, states, id, w, hasLog, []))
  {
    var es := Aborts(ps, states, id, w).1;
    assert [] + Record(hasLog, AbortStart) == Record(hasLog, AbortStart);
    Reassociate(before, Record(hasLog, AbortStart), es, Record(hasLog, Aborted));
  }

  /** `RunCommit` phase by phase. */
  lemma RunCommitSplits<W>(ps: seq<Callbacks<W>>, id: string, w: W, hasLog: bool)
    ensures var (w1, pr) := Prepares(ps, id, w);
            RunCommit(ps, id, w, hasLog)
            == Prefixed(Record(hasLog, PrepareStart) + Calls(Prepare, pr),
                        if AllZero(pr) then CommitPart(ps, id, w1, hasLog)
                        else AbortPath(ps, StatesAfterPrepare(|ps|, pr), id, w1, hasLog, []))
  {
    var (w1, pr) := Prepares(ps, id, w);
    var (w2, cr) := Commits(ps, id, w1);
    var preparing := Record(hasLog, PrepareStart) + Calls(Prepare, pr);
    var rest := Record(hasLog, AllPrepared) + Record(hasLog, CommitStart) + Calls(Commit, cr);
    AbortPathAfter(ps, StatesAfterPrepare(|ps|, pr), id, w1, hasLog, preparing);
    Reassociate(preparing, Record(hasLog, AllPrepared), Record(hasLog, CommitStart), Calls(Commit, cr));
    AbortPathAfter(ps, StatesAfterCommit(cr), id, w2, hasLog, preparing + rest);
    Together(preparing, rest, Record(hasLog, Committed));
    Together(preparing, rest, AbortPath(ps, StatesAfterCommit(cr), id, w2, hasLog, []).trace);
  }

  /** The locked regions `txn_commit` goes through, as decided by its callbacks. */
  function CommitSteps<W>(ps: seq<Callbacks<W>>, id: string, w: W): seq<Step> {
    var (w1, pr) := Prepares(ps, id, w);
    [StartPrepare(id)] + (if AllZero(pr) then DecideSteps(id, AllZero(Commits(ps, id, w1).1)) else RollBackSteps(id))
  }

  function DecideSteps(id: string, committed: bool): seq<Step> {
    [DecideCommit(id)] + if committed then [FinishCommit(id)] else RollBackSteps(id)
  }

  lemma EveryonePrepared<W>(ps: seq<Participant<W>>, id: string, w: W)
    requires AllZero(Prepares(CallbacksOf(ps), id, w).1)
    requires StatesOf(ps) == StatesAfterPrepare(|ps|, Prepares(CallbacksOf(ps), id, w).1)
    ensures forall i :: 0 <= i < |ps| ==> ps[i].state == PartPrepared
  {
    PreparesFailFast(CallbacksOf(ps), id, w, []);
    assert forall i :: 0 <= i < |ps| ==> ps[i].state == StatesOf(ps)[i];
  }

  /** The log lines in a trace. */
  function LoggedIn(trace: seq<Event>): seq<Action> {
    if trace == [] then []
    else
      LoggedIn(trace[..|trace| - 1]) + if trace[|trace| - 1].Logged? then [trace[|trace| - 1].action] else []
  }

  lemma {:induction false} LoggedInConcat(a: seq<Event>, b: seq<Event>)
    ensures LoggedIn(a + b) == LoggedIn(a) + LoggedIn(b)
  {
    if b == [] {
      assert a + b == a;
    } else {
      assert (a + b)[..|a + b| - 1] == a + b[..|b| - 1];
      LoggedInConcat(a, b[..|b| - 1]);
    }
  }

  lemma {:induction false} LoggedThenCalls(a: seq<Event>, action: Action, calls: seq<Event>)
    requires forall e :: e in calls ==> e.Called?
    ensures LoggedIn(a + [Logged(action)] + calls) == LoggedIn(a) + [action]
    decreases |calls|
  {
    if calls == [] {
      assert a + [Logged(action)] + calls == a + [Logged(action)];
      assert (a + [Logged(action)])[..|a|] == a;
    } else {
      var init := calls[..|calls| - 1];
      LoggedThenCalls(a, action, init);
      assert calls[|calls| - 1] in calls;
      assert (a + [Logged(action)] + calls)[..|a| + |calls|] == a + [Logged(action)] + init;
    }
  }

  lemma LoggedInAbortPath<W>(ps: seq<Callbacks<W>>, states: seq<ParticipantState>, id: string, w: W)
    requires |ps| == |states|
    ensures LoggedIn(AbortPath(ps, states, id, w, true, []).trace) == [AbortStart, Aborted]
  {
    var es := Aborts(ps, states, id, w).1;
    AbortsAreAborts(ps, states, id, w, 0, []);
    LoggedThenCalls([], AbortStart, es);
    LoggedThenCalls([] + [Logged(AbortStart)] + es, Aborted, []);
    assert AbortPath(ps, states, id, w, true, []).trace == [] + [Logged(AbortStart)] + es + [Logged(Aborted)] + [];
  }

  lemma LoggedInCommitPart<W>(ps: seq<Callbacks<W>>, id: string, w: W)
    ensures LoggedIn(CommitPart(ps, id, w, true).trace)
            == [AllPrepared, CommitStart] + if AllZero(Commits(ps, id, w).1) then [Committed] else [AbortStart, Aborted]
  {
    var (w2, cr) := Commits(ps, id, w);
    var committing := Record(true, AllPrepared) + Record(true, CommitStart) + Calls(Commit, cr);
    LoggedThenCalls([], AllPrepared, []);
    LoggedThenCalls(Record(true, AllPrepared), CommitStart, Calls(Commit, cr));
    assert [] + [Logged(AllPrepared)] + [] == Record(true, AllPrepared);
    if AllZero(cr) {
      LoggedThenCalls(committing, Committed, []);
      assert committing + [Logged(Committed)] + [] == CommitPart(ps, id, w, true).trace;
    } else {
      LoggedInAbortPath(ps, StatesAfterCommit(cr), id, w2);
      LoggedInConcat(committing, AbortPath(ps, StatesAfterCommit(cr), id, w2, true, []).trace);
    }
  }

  lemma LoggedWhilePreparing(pr: seq<int>)
    ensures LoggedIn(Record(true, PrepareStart) + Calls(Prepare, pr)) == [PrepareStart]
  {
    LoggedThenCalls([], PrepareStart, Calls(Prepare, pr));
    assert [] + [Logged(PrepareStart)] + Calls(Prepare, pr) == Record(true, PrepareStart) + Calls(Prepare, pr);
  }

  /** What `txn_commit` logs when all prepares, and all commits, went well or not. */
  function CommitWord(prepared: bool, committed: bool): seq<Action> {
    if !prepared then [PrepareStart, AbortStart, Aborted]
    else if committed then [PrepareStart, AllPrepared, CommitStart, Committed]
    else [PrepareStart, AllPrepared, CommitStart, AbortStart, Aborted]
  }

  lemma {:induction false} LoggedAfterPreparing(pr: seq<int>, rest: seq<Event>)
    ensures LoggedIn(Record(true, PrepareStart) + Calls(Prepare, pr) + rest) == [PrepareStart] + LoggedIn(rest)
  {
    LoggedWhilePreparing(pr);
    LoggedInConcat(Record(true, PrepareStart) + Calls(Prepare, pr), rest);
  }

  lemma {:induction false} LoggedWhenPrepared<W>(ps: seq<Callbacks<W>>, id: string, w: W)
    requires AllZero(Prepares(ps, id, w).1)
    ensures LoggedIn(RunCommit(ps, id, w, true).trace)
            == CommitWord(true, AllZero(Commits(ps, id, Prepares(ps, id, w).0).1))
  {
    var (w1, pr) := Prepares(ps, id, w);
    RunCommitSplits(ps, id, w, true);
    LoggedInCommitPart(ps, id, w1);
    LoggedAfterPreparing(pr, CommitPart(ps, id, w1, true).trace);
  }

  lemma {:induction false} LoggedWhenStopped<W>(ps: seq<Callbacks<W>>, id: string, w: W)
    requires !AllZero(Prepares(ps, id, w).1)
    ensures LoggedIn(RunCommit(ps, id, w, true).trace) == CommitWord(false, false)
  {
    var (w1, pr) := Prepares(ps, id, w);
    RunCommitSplits(ps, id, w, true);
    LoggedInAbortPath(ps, StatesAfterPrepare(|ps|, pr), id, w1);
    LoggedAfterPreparing(pr, AbortPath(ps, StatesAfterPrepare(|ps|, pr), id, w1, true, []).trace);
  }

  lemma {:induction false} LoggedInRunCommit<W>(ps: seq<Callbacks<W>>, id: string, w: W)
    ensures var (w1, pr) := Prepares(ps, id, w);
            LoggedIn(RunCommit(ps, id, w, true).trace) == CommitWord(AllZero(pr), AllZero(Commits(ps, id, w1).1))
  {
    if AllZero(Prepares(ps, id, w).1) {
      LoggedWhenPrepared(ps, id, w);
    } else {
      LoggedWhenStopped(ps, id, w);
    }
  }

  lemma ActionsOfCommitSteps<W>(ps: seq<Callbacks<W>>, id: string, w: W)
    ensures var (w1, pr) := Prepares(ps, id, w);
            AllActions(CommitSteps(ps, id, w)) == CommitWord(AllZero(pr), AllZero(Commits(ps, id, w1).1))
  {
    ActionsOfSteps(id);
  }

  lemma ActionsOfSteps(id: string)
    ensures AllActions([StartPrepare(id)] + RollBackSteps(id)) == [PrepareStart, AbortStart, Aborted]
    ensures AllActions([StartPrepare(id)] + ([DecideCommit(id)] + [FinishCommit(id)]))
            == [PrepareStart, AllPrepared, CommitStart, Committed]
    ensures AllActions([StartPrepare(id)] + ([DecideCommit(id)] + RollBackSteps(id)))
            == [PrepareStart, AllPrepared, CommitStart, AbortStart, Aborted]
  {
    OneStep(StartPrepare(id));
    OneStep(DecideCommit(id));
    OneStep(FinishCommit(id));
    OneStep(StartAbort(id));
    OneStep(FinishAbort(id));
    AllActionsConcat([StartAbort(id)], [FinishAbort(id)]);
    AllActionsConcat([DecideCommit(id)], [FinishCommit(id)]);
    AllActionsConcat([DecideCommit(id)], RollBackSteps(id));
    AllActionsConcat([StartPrepare(id)], RollBackSteps(id));
    AllActionsConcat([StartPrepare(id)], [DecideCommit(id)] + [FinishCommit(id)]);
    AllActionsConcat([StartPrepare(id)], [DecideCommit(id)] + RollBackSteps(id));
  }

  lemma OneStep(step: Step)
    ensures AllActions([step]) == Actions(step)
  {
    assert [step][..0] == [];
    assert AllActions([]) + Actions(step) == Actions(step);
  }

  /**
    What `txn_commit` adds to the log for its transaction, whatever other threads write in between, is the log lines
    of its trace.  CrashPoints.dfy extends this to every point inside it.
   */
  lemma LogIsTrace<W>(s0: Sys, s1: Sys, run: seq<Step>, ps: seq<Callbacks<W>>, id: string, w: W)
    requires s0.hasLog && Ran(s0, s1, run, id, CommitSteps(ps, id, w))
    ensures Project(s1.log, id) == Project(s0.log, id) + LoggedIn(RunCommit(ps, id, w, true).trace)
  {
    LoggedInRunCommit(ps, id, w);
    ActionsOfCommitSteps(ps, id, w);
  }

  function RollBackSteps(id: string): seq<Step> {
    [StartAbort(id)] + [FinishAbort(id)]
  }

  class Coordinator<!W> {
    const hasLog: bool                     // whether logs/transactions.log could be opened
    const active: array<Transaction?<W>>
    var activeCount: nat
    var log: seq<LogLine>
    ghost var txns: seq<Transaction<W>>    // the used part of the array
    ghost var entries: seq<Entry>          // the same, by value

    ghost predicate Valid()
      reads this, active
    {
      && active.Length == MAX_ACTIVE_TRANSACTIONS
      && activeCount == |txns| == |entries| <= MAX_ACTIVE_TRANSACTIONS
      && (forall i :: 0 <= i < |txns| ==> active[i] == txns[i] && entries[i].id == txns[i].id)
      && (forall i, j :: 0 <= i < j < |entries| ==> entries[i].id != entries[j].id)
    }

    /** The coordinator as the interleaving model sees it. */
    ghost function View(): Sys
      reads this
    {
      Sys(hasLog, entries, log)
    }

    constructor (hasLog: bool)
      ensures Valid() && fresh(active) && this.hasLog == hasLog && View() == Start(hasLog)
    {
      this.hasLog := hasLog;
      active := new Transaction?<W>[MAX_ACTIVE_TRANSACTIONS](_ => null);
      activeCount, log, txns, entries := 0, [], [], [];
    }

    /** log_transaction_state */
    method LogState(txn: Transaction<W>, action: Action)
      modifies this`log, txn`trace
      ensures log == if hasLog then old(log) + [LogLine(txn.id, txn.state, action)] else old(log)
      ensures txn.trace == old(txn.trace) + Record(hasLog, action)
    {
      if !hasLog {
        return;
      }
      log := log + [LogLine(txn.id, txn.state, action)];
      txn.trace := txn.trace + [Logged(action)];
    }

    /** find_transaction */
    method FindTransaction(id: string) returns (t: Transaction?<W>)
      requires Valid()
      ensures t != null <==> Has(View().active, id)
      ensures t != null ==> t == txns[Find(View().active, id)] && t.id == id
    {
      var i := 0;
      while i < activeCount
        invariant 0 <= i <= activeCount
        invariant forall j :: 0 <= j < i ==> entries[j].id != id
      {
        if active[i] != null && active[i].id == id {
          return active[i];
        }
        i := i + 1;
      }
      return null;
    }

    /** remove_transaction: close the gap by shifting the later transactions down. */
    method RemoveTransaction(id: string)
      requires Valid()
      modifies this`activeCount, this`txns, this`entries, active
      ensures Valid()
      ensures entries == Without(old(entries), id) && !Has(entries, id)
    {
      WithoutIsGone(entries, id);
      var i := 0;
      while i < activeCount
        invariant 0 <= i <= activeCount
        invariant forall j :: 0 <= j < i ==> entries[j].id != id
        modifies {}
      {
        if active[i] != null && active[i].id == id {
          break;
        }
        i := i + 1;
      }
      assert i == Find(entries, id);
      if i < activeCount {
        ShiftDown(i);
      }
    }

    /** The inner loop of remove_transaction. */
    method ShiftDown(i: nat)
      requires Valid() && i < activeCount
      modifies this`activeCount, this`txns, this`entries, active
      ensures Valid()
      ensures txns == old(txns[..i] + txns[i + 1..])
      ensures entries == old(entries[..i] + entries[i + 1..])
    {
      var j := i;
      while j < activeCount - 1
        invariant i <= j < activeCount
        invariant forall k :: 0 <= k < i ==> active[k] == txns[k]
        invariant forall k :: i <= k < j ==> active[k] == txns[k + 1]
        invariant forall k :: j <= k < activeCount ==> active[k] == txns[k]
        modifies active
      {
        active[j] := active[j + 1];
        j := j + 1;
      }
      activeCount := activeCount - 1;
      txns := txns[..i] + txns[i + 1..];
      entries := entries[..i] + entries[i + 1..];
    }

    /** txn_begin; `id` fits the transaction's 64-byte buffer, so it is stored whole. */
    method Begin(id: string) returns (txn: Transaction?<W>)
      requires Valid() && |id| < MAX_TRANSACTION_ID_LEN
      modifies this, active
      ensures Valid()
      ensures View() == Apply(old(View()), BeginTxn(id))
      ensures txn == null <==> Has(old(entries), id) || |old(entries)| == MAX_ACTIVE_TRANSACTIONS
      ensures txn == null ==> txns == old(txns)
      ensures txn != null ==> fresh(txn) && txn.id == id && txn.state == TxnInit && txn.participants == []
                              && txn.trace == Record(hasLog, Begun) && txns == old(txns) + [txn]
    {
      var existing := FindTransaction(id);
      if existing != null {
        return null;
      }
      if activeCount >= MAX_ACTIVE_TRANSACTIONS {
        return null;
      }
      txn := new Transaction(id);
      active[activeCount] := txn;
      activeCount := activeCount + 1;
      txns, entries := txns + [txn], entries + [Entry(id, TxnInit)];
      LogState(txn, Begun);
    }

    /** The caller drives `txn`, which is in the array, in this state; nobody else touches its fields. */
    ghost predicate Driving(txn: Transaction<W>, state: TxnState)
      reads this, active, txn
    {
      Valid() && txn in txns && txn.state == state && Lookup(entries, txn.id) == Present(state)
    }

    /** Set the transaction's state field, keeping the by-value copy in step. */
    method SetState(txn: Transaction<W>, state: TxnState)
      requires Valid() && txn in txns && Has(entries, txn.id)
      modifies txn`state, this`entries
      ensures Driving(txn, state)
      ensures entries == WithState(old(entries), txn.id, state)
    {
      txn.state := state;
      LookupWithState(entries, txn.id, state, txn.id);
      entries := WithState(entries, txn.id, state);
    }

    /** The region that opens phase one. */
    method MarkPreparing(txn: Transaction<W>)
      requires Driving(txn, TxnInit)
      modifies this`log, this`entries, txn`state, txn`trace
      ensures Driving(txn, TxnPreparing)
      ensures View() == Apply(old(View()), StartPrepare(txn.id))
      ensures txn.trace == old(txn.trace) + Record(hasLog, PrepareStart)
    {
      SetState(txn, TxnPreparing);
      LogState(txn, PrepareStart);
    }

    /** The region between the phases. */
    method MarkCommitting(txn: Transaction<W>)
      requires Driving(txn, TxnPreparing)
      modifies this`log, this`entries, txn`state, txn`trace
      ensures Driving(txn, TxnCommitting)
      ensures View() == Apply(old(View()), DecideCommit(txn.id))
      ensures txn.trace == old(txn.trace) + (Record(hasLog, AllPrepared) + Record(hasLog, CommitStart))
    {
      StateTwice(entries, txn.id, TxnPrepared, TxnCommitting);
      ghost var log0 := log;
      SetState(txn, TxnPrepared);
      LogState(txn, AllPrepared);
      SetState(txn, TxnCommitting);
      LogState(txn, CommitStart);
      Together(old(txn.trace), Record(hasLog, AllPrepared), Record(hasLog, CommitStart));
      TwoLines(log0, LogLine(txn.id, TxnPrepared, AllPrepared), LogLine(txn.id, TxnCommitting, CommitStart));
    }

    method MarkCommitted(txn: Transaction<W>)
      requires Driving(txn, TxnCommitting)
      modifies this, active, txn`state, txn`trace
      ensures Valid() && txn.state == TxnCommitted
      ensures View() == Apply(old(View()), FinishCommit(txn.id))
      ensures txn.trace == old(txn.trace) + Record(hasLog, Committed)
      ensures !Has(entries, txn.id)
    {
      StateThenGone(entries, txn.id, TxnCommitted);
      SetState(txn, TxnCommitted);
      LogState(txn, Committed);
      RemoveTransaction(txn.id);
    }

    method MarkAborting(txn: Transaction<W>)
      requires Driving(txn, TxnPreparing) || Driving(txn, TxnCommitting)
      modifies this`log, this`entries, txn`state, txn`trace
      ensures Driving(txn, TxnAborting)
      ensures View() == Apply(old(View()), StartAbort(txn.id))
      ensures txn.trace == old(txn.trace) + Record(hasLog, AbortStart)
    {
      SetState(txn, TxnAborting);
      LogState(txn, AbortStart);
    }

    method MarkAborted(txn: Transaction<W>)
      requires Driving(txn, TxnAborting)
      modifies this, active, txn`state, txn`trace
      ensures Valid() && txn.state == TxnAborted
      ensures View() == Apply(old(View()), FinishAbort(txn.id))
      ensures txn.trace == old(txn.trace) + Record(hasLog, Aborted)
      ensures !Has(entries, txn.id)
    {
      FinishAborting(txn);
    }

    /** Other transactions run locked regions of their own, any number of times, while `txn` has the lock released. */
    method OtherThreads(txn: Transaction<W>, ghost state: TxnState) returns (ghost run: seq<Step>)
      requires Driving(txn, state)
      modifies this, active
      ensures Driving(txn, state)
      ensures IsRun(old(View()), run) && View() == After(old(View()), run)
      ensures forall step :: step in run ==> Foreign(step, txn.id)
    {
      run := [];
    }

    /** One locked region of `txn`, then other threads. */
    lemma RegionThenOthers(s0: Sys, s2: Sys, step: Step, others: seq<Step>)
      requires Enabled(s0, step) && !step.BeginTxn?
      requires IsRun(Apply(s0, step), others) && s2 == After(Apply(s0, step), others)
      requires forall o :: o in others ==> Foreign(o, step.id)
      requires var s1 := Apply(s0, step);
               Has(s1.active, step.id) && Distinct(Ids(s1.active)) && |s1.active| <= MAX_ACTIVE_TRANSACTIONS
      ensures Ran(s0, s2, [step] + others, step.id, [step])
    {
      OthersKeepLog(Apply(s0, step), others, step.id);
      RanStep(s0, step);
      OwnOfForeign(others, step.id);
      RanConcat(s0, Apply(s0, step), s2, [step], others, step.id, [step], []);
      assert [step] + [] == [step];
    }

    method PhaseOne(txn: Transaction<W>, w0: W) returns (ok: bool, w: W, ghost rcs: seq<int>, ghost run: seq<Step>)
      requires Driving(txn, TxnInit)
      requires forall i :: 0 <= i < |txn.participants| ==> txn.participants[i].state == PartInit
      modifies this, active, txn
      ensures Driving(txn, TxnPreparing)
      ensures CallbacksOf(txn.participants) == CallbacksOf(old(txn.participants))
      ensures (w, rcs) == Prepares(CallbacksOf(txn.participants), txn.id, w0)
      ensures ok <==> AllZero(rcs)
      ensures StatesOf(txn.participants) == StatesAfterPrepare(|txn.participants|, rcs)
      ensures Ran(old(View()), View(), run, txn.id, [StartPrepare(txn.id)])
      ensures txn.trace == old(txn.trace) + (Record(hasLog, PrepareStart) + Calls(Prepare, rcs))
    {
      ghost var s0 := View();
      MarkPreparing(txn);
      ghost var others := OtherThreads(txn, TxnPreparing);
      RegionThenOthers(s0, View(), StartPrepare(txn.id), others);
      run := [StartPrepare(txn.id)] + others;
      ok, w, rcs := txn.PrepareAll(w0);
      Together(old(txn.trace), Record(hasLog, PrepareStart), Calls(Prepare, rcs));
    }

    method PhaseTwo(txn: Transaction<W>, w0: W) returns (ok: bool, w: W, ghost rcs: seq<int>, ghost run: seq<Step>)
      requires Driving(txn, TxnPreparing)
      requires forall i :: 0 <= i < |txn.participants| ==> txn.participants[i].state == PartPrepared
      modifies this, active, txn
      ensures Driving(txn, TxnCommitting)
      ensures CallbacksOf(txn.participants) == CallbacksOf(old(txn.participants))
      ensures (w, rcs) == Commits(CallbacksOf(txn.participants), txn.id, w0)
      ensures ok <==> AllZero(rcs)
      ensures StatesOf(txn.participants) == StatesAfterCommit(rcs)
      ensures Ran(old(View()), View(), run, txn.id, [DecideCommit(txn.id)])
      ensures txn.trace == old(txn.trace) + (Record(hasLog, AllPrepared) + Record(hasLog, CommitStart)
                                             + Calls(Phase.Commit, rcs))
    {
      ghost var s0 := View();
      MarkCommitting(txn);
      ghost var others := OtherThreads(txn, TxnCommitting);
      RegionThenOthers(s0, View(), DecideCommit(txn.id), others);
      run := [DecideCommit(txn.id)] + others;
      ok, w, rcs := txn.CommitAll(w0);
      Together(old(txn.trace), Record(hasLog, AllPrepared) + Record(hasLog, CommitStart), Calls(Phase.Commit, rcs));
    }

    method StartRollBack(txn: Transaction<W>, w0: W) returns (w: W, ghost events: seq<Event>, ghost run: seq<Step>)
      requires Driving(txn, TxnPreparing) || Driving(txn, TxnCommitting)
      modifies this, active, txn
      ensures Driving(txn, TxnAborting)
      ensures (w, events) == Aborts(CallbacksOf(old(txn.participants)), StatesOf(old(txn.participants)), txn.id, w0)
      ensures StatesOf(txn.participants) == StatesAfterAbort(StatesOf(old(txn.participants)))
      ensures Ran(old(View()), View(), run, txn.id, [StartAbort(txn.id)])
      ensures txn.trace == old(txn.trace) + (Record(hasLog, AbortStart) + events)
    {
      ghost var s0 := View();
      MarkAborting(txn);
      ghost var others := OtherThreads(txn, TxnAborting);
      RegionThenOthers(s0, View(), StartAbort(txn.id), others);
      run := [StartAbort(txn.id)] + others;
      w, events := txn.AbortUnfinished(w0);
      Together(old(txn.trace), Record(hasLog, AbortStart), events);
    }

    method FinishRollBack(txn: Transaction<W>) returns (ghost run: seq<Step>)
      requires Driving(txn, TxnAborting)
      modifies this, active, txn`state, txn`trace
      ensures Valid() && txn.state == TxnAborted
      ensures Ran(old(View()), View(), run, txn.id, [FinishAbort(txn.id)])
      ensures txn.trace == old(txn.trace) + Record(hasLog, Aborted)
      ensures !Has(entries, txn.id)
    {
      RanStep(View(), FinishAbort(txn.id));
      MarkAborted(txn);
      run := [FinishAbort(txn.id)];
    }

    method FinishCommitting(txn: Transaction<W>) returns (ghost run: seq<Step>)
      requires Driving(txn, TxnCommitting)
      modifies this, active, txn`state, txn`trace
      ensures Valid() && txn.state == TxnCommitted
      ensures Ran(old(View()), View(), run, txn.id, [FinishCommit(txn.id)])
      ensures txn.trace == old(txn.trace) + Record(hasLog, Committed)
      ensures !Has(entries, txn.id)
    {
      RanStep(View(), FinishCommit(txn.id));
      MarkCommitted(txn);
      run := [FinishCommit(txn.id)];
    }

    /** The abort path of txn_commit. */
    method RollBack(txn: Transaction<W>, w0: W) returns (w: W, ghost trace: seq<Event>, ghost run: seq<Step>)
      requires Driving(txn, TxnPreparing) || Driving(txn, TxnCommitting)
      modifies this, active, txn
      ensures Valid() && txn.state == TxnAborted
      ensures txn.trace == old(txn.trace) + trace
      ensures Outcome(-1, w, trace, StatesOf(txn.participants))
              == AbortPath(CallbacksOf(old(txn.participants)), StatesOf(old(txn.participants)), txn.id, w0, hasLog, [])
      ensures Ran(old(View()), View(), run, txn.id, RollBackSteps(txn.id))
      ensures !Has(entries, txn.id)
    {
      ghost var s0 := View();
      ghost var events, run1, run2;
      w, events, run1 := StartRollBack(txn, w0);
      ghost var s1 := View();
      run2 := FinishRollBack(txn);
      trace := [] + Record(hasLog, AbortStart) + events + Record(hasLog, Aborted);
      assert [] + Record(hasLog, AbortStart) == Record(hasLog, AbortStart);
      Together(old(txn.trace), Record(hasLog, AbortStart) + events, Record(hasLog, Aborted));
      RanConcat(s0, s1, View(), run1, run2, txn.id, [StartAbort(txn.id)], [FinishAbort(txn.id)]);
      run := run1 + run2;
    }

    /** Phase two and its end: COMMITTED, or the abort path. */
    method CommitOrRollBack(txn: Transaction<W>, w0: W)
      returns (rc: int, w: W, ghost trace: seq<Event>, ghost run: seq<Step>)
      requires Driving(txn, TxnPreparing)
      requires forall i :: 0 <= i < |txn.participants| ==> txn.participants[i].state == PartPrepared
      modifies this, active, txn
      ensures Valid()
      ensures txn.state == if rc == 0 then TxnCommitted else TxnAborted
      ensures txn.trace == old(txn.trace) + trace
      ensures Outcome(rc, w, trace, StatesOf(txn.participants))
              == CommitPart(CallbacksOf(old(txn.participants)), txn.id, w0, hasLog)
      ensures Ran(old(View()), View(), run, txn.id,
                  DecideSteps(txn.id, rc == 0))
      ensures !Has(entries, txn.id)
    {
      ghost var s0 := View();
      var ok;
      ghost var crs, run1;
      ok, w, crs, run1 := PhaseTwo(txn, w0);
      ghost var s1 := View();
      ghost var after, run2;
      if ok {
        run2 := FinishCommitting(txn);
        rc, after := 0, Record(hasLog, Committed);
        RanConcat(s0, s1, View(), run1, run2, txn.id, [DecideCommit(txn.id)], [FinishCommit(txn.id)]);
      } else {
        rc := -1;
        w, after, run2 := RollBack(txn, w);
        RanConcat(s0, s1, View(), run1, run2, txn.id, [DecideCommit(txn.id)], RollBackSteps(txn.id));
      }
      ghost var committing := Record(hasLog, AllPrepared) + Record(hasLog, CommitStart) + Calls(Phase.Commit, crs);
      Together(old(txn.trace), committing, after);
      trace := committing + after;
      run := run1 + run2;
    }

    /** txn_commit, with other threads at work whenever the lock is free. */
    method Commit(txn: Transaction<W>, w0: W)
      returns (rc: int, w: W, ghost trace: seq<Event>, ghost run: seq<Step>)
      requires Driving(txn, TxnInit)
      requires forall i :: 0 <= i < |txn.participants| ==> txn.participants[i].state == PartInit
      modifies this, active, txn
      ensures Valid()
      ensures txn.trace == old(txn.trace) + trace
      ensures Outcome(rc, w, trace, StatesOf(txn.participants))
              == RunCommit(CallbacksOf(old(txn.participants)), txn.id, w0, hasLog)
      ensures txn.state == if rc == 0 then TxnCommitted else TxnAborted
      ensures Ran(old(View()), View(), run, txn.id, CommitSteps(CallbacksOf(old(txn.participants)), txn.id, w0))
      ensures !Has(entries, txn.id)
    {
      ghost var s0 := View();
      RunCommitSplits(CallbacksOf(txn.participants), txn.id, w0, hasLog);
      var ok;
      ghost var prs, run1;
      ok, w, prs, run1 := PhaseOne(txn, w0);
      ghost var s1 := View();
      ghost var after, run2;
      if ok {
        EveryonePrepared(txn.participants, txn.id, w0);
        rc, w, after, run2 := CommitOrRollBack(txn, w);
      } else {
        rc := -1;
        w, after, run2 := RollBack(txn, w);
      }
      RanConcat(s0, s1, View(), run1, run2, txn.id, [StartPrepare(txn.id)],
                if ok then DecideSteps(txn.id, rc == 0) else RollBackSteps(txn.id));
      ghost var preparing := Record(hasLog, PrepareStart) + Calls(Prepare, prs);
      Together(old(txn.trace), preparing, after);
      trace := preparing + after;
      run := run1 + run2;
    }

    /** txn_abort, which keeps the lock throughout. */
    method AbortTxn(txn: Transaction<W>, w0: W) returns (w: W, ghost events: seq<Event>)
      requires Driving(txn, TxnInit)
      modifies this, active, txn
      ensures Valid() && txn.state == TxnAborted
      ensures (w, events) == Aborts(CallbacksOf(old(txn.participants)), Everyone(|old(txn.participants)|), txn.id, w0)
      ensures View() == Apply(old(View()), AbortNow(txn.id))
      ensures txn.trace == old(txn.trace) + (Record(hasLog, AbortExplicit) + events + Record(hasLog, Aborted))
      ensures EveryoneCalled(events, |old(txn.participants)|)
      ensures forall i: nat :: i < |old(txn.participants)| ==> CallCount(events, Abort, i) == 1
      ensures w == WorldAfterAborts(CallbacksOf(old(txn.participants)), txn.id, w0, |old(txn.participants)|)
      ensures StatesOf(txn.participants) == seq(|old(txn.participants)|, _ => PartAborted)
      ensures !Has(entries, txn.id)
    {
      StateThenGone(entries, txn.id, TxnAborting);
      SetState(txn, TxnAborting);
      LogState(txn, AbortExplicit);
      w, events := txn.AbortEveryone(w0);
      FinishAborting(txn);
      TwoLines(old(log), LogLine(txn.id, TxnAborting, AbortExplicit), LogLine(txn.id, TxnAborted, Aborted));
      Reassociate(old(txn.trace), Record(hasLog, AbortExplicit), events, Record(hasLog, Aborted));
    }

    /** The end of txn_abort. */
    method FinishAborting(txn: Transaction<W>)
      requires Driving(txn, TxnAborting)
      modifies this, active, txn`state, txn`trace
      ensures Valid() && txn.state == TxnAborted
      ensures entries == Without(old(entries), txn.id)
      ensures log == if hasLog then old(log) + [LogLine(txn.id, TxnAborted, Aborted)] else old(log)
      ensures txn.trace == old(txn.trace) + Record(hasLog, Aborted)
      ensures !Has(entries, txn.id)
    {
      StateThenGone(entries, txn.id, TxnAborted);
      SetState(txn, TxnAborted);
      LogState(txn, Aborted);
      RemoveTransaction(txn.id);
    }
  }
}
