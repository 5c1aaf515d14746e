/**
  Any interleaving of transactions on one coordinator (server/transaction_coordinator.c).

  The coordinator's mutex makes each locked region atomic; between regions a transaction runs its
  callbacks without the lock.  A `Step` is one locked region, `Apply` its effect on the active array
  and the log, and a run is any sequence of enabled steps, by any number of threads, each transaction
  being driven by one `txn_commit` or one `txn_abort`.  Which decision step a transaction takes is
  left open, since it depends on arbitrary callbacks.
 */
module TxnLog {
  import opened TwoPhase
  import Runs

  const MAX_ACTIVE_TRANSACTIONS := 1024
  const MAX_TRANSACTION_ID_LEN := 64

  datatype Entry = Entry(id: string, state: TxnState)
  datatype LogLine = LogLine(id: string, state: TxnState, action: Action)
  datatype Sys = Sys(hasLog: bool, active: seq<Entry>, log: seq<LogLine>)

  datatype Step =
    | BeginTxn(id: string)      // txn_begin
    | StartPrepare(id: string)  // txn_commit, up to the prepare loop
    | DecideCommit(id: string)  // all prepared: PREPARED and COMMIT_START
    | FinishCommit(id: string)  // all committed: COMMITTED, then remove
    | StartAbort(id: string)    // a prepare or a commit failed: ABORT_START
    | FinishAbort(id: string)   // ABORTED, then remove
    | AbortNow(id: string)      // txn_abort, which keeps the lock throughout

  // ---------------------------------------------------------------- the active list

  /** Index of the first entry with this id, or the length of the list. */
  function Find(active: seq<Entry>, id: string): (i: nat)
    ensures i <= |active|
    ensures forall j :: 0 <= j < i ==> active[j].id != id
    ensures i < |active| ==> active[i].id == id
  {
    if active == [] then 0
    else if active[0].id == id then 0
    else 1 + Find(active[1..], id)
  }

  predicate Has(active: seq<Entry>, id: string) {
    Find(active, id) < |active|
  }

  datatype Status = Absent | Present(state: TxnState)

  function Lookup(active: seq<Entry>, id: string): Status {
    var i := Find(active, id);
    if i < |active| then Present(active[i].state) else Absent
  }

  function Without(active: seq<Entry>, id: string): seq<Entry> {
    var i := Find(active, id);
    if i < |active| then active[..i] + active[i + 1..] else active
  }

  function WithState(active: seq<Entry>, id: string, state: TxnState): seq<Entry> {
    var i := Find(active, id);
    if i < |active| then active[i := Entry(id, state)] else active
  }

  // ---------------------------------------------------------------- steps

  function Write(s: Sys, lines: seq<LogLine>): seq<LogLine> {
    if s.hasLog then s.log + lines else s.log
  }

  function Apply(s: Sys, step: Step): Sys {
    var id := step.id;
    match step
    case BeginTxn(_) =>
      if Has(s.active, id) || |s.active| >= MAX_ACTIVE_TRANSACTIONS then s
      else Sys(s.hasLog, s.active + [Entry(id, TxnInit)], Write(s, [LogLine(id, TxnInit, Begun)]))
    case StartPrepare(_) =>
      Sys(s.hasLog, WithState(s.active, id, TxnPreparing), Write(s, [LogLine(id, TxnPreparing, PrepareStart)]))
    case DecideCommit(_) =>
      Sys(s.hasLog, WithState(s.active, id, TxnCommitting),
          Write(s, [LogLine(id, TxnPrepared, AllPrepared), LogLine(id, TxnCommitting, CommitStart)]))
    case FinishCommit(_) =>
      Sys(s.hasLog, Without(s.active, id), Write(s, [LogLine(id, TxnCommitted, Committed)]))
    case StartAbort(_) =>
      Sys(s.hasLog, WithState(s.active, id, TxnAborting), Write(s, [LogLine(id, TxnAborting, AbortStart)]))
    case FinishAbort(_) =>
      Sys(s.hasLog, Without(s.active, id), Write(s, [LogLine(id, TxnAborted, Aborted)]))
    case AbortNow(_) =>
      Sys(s.hasLog, Without(s.active, id),
          Write(s, [LogLine(id, TxnAborting, AbortExplicit), LogLine(id, TxnAborted, Aborted)]))
  }

  /** The step is the next locked region of its transaction. */
  predicate Enabled(s: Sys, step: Step) {
    if step.BeginTxn? then |step.id| < MAX_TRANSACTION_ID_LEN
    else
      var i := Find(s.active, step.id);
      i < |s.active| &&
      var st := s.active[i].state;
      match step
      case StartPrepare(_) => st == TxnInit
      case AbortNow(_) => st == TxnInit
      case DecideCommit(_) => st == TxnPreparing
      case StartAbort(_) => st == TxnPreparing || st == TxnCommitting
      case FinishCommit(_) => st == TxnCommitting
      case FinishAbort(_) => st == TxnAborting
  }

  function Start(hasLog: bool): Sys {
    Sys(hasLog, [], [])
  }

  function After(s: Sys, steps: seq<Step>): Sys {
    Runs.After(Apply, s, steps)
  }

  /** Every step of the run is enabled where it happens. */
  predicate IsRun(s: Sys, steps: seq<Step>) {
    Runs.IsRun(Apply, Enabled, s, steps)
  }

  // ---------------------------------------------------------------- what the log says

  function Ids(active: seq<Entry>): seq<string> {
    seq(|active|, i requires 0 <= i < |active| => active[i].id)
  }

  predicate Distinct(ids: seq<string>) {
    forall i, j :: 0 <= i < j < |ids| ==> ids[i] != ids[j]
  }

  function Drop(ids: seq<string>, id: string): seq<string> {
    if ids == [] then []
    else if ids[0] == id then Drop(ids[1..], id)
    else [ids[0]] + Drop(ids[1..], id)
  }

  /** The unfinished transactions in begin order, rebuilt from the log alone. */
  function Replay(log: seq<LogLine>): seq<string> {
    if log == [] then []
    else
      var ids := Replay(log[..|log| - 1]);
      var line := log[|log| - 1];
      match line.action
      case Begun => ids + [line.id]
      case Committed => Drop(ids, line.id)
      case Aborted => Drop(ids, line.id)
      case _ => ids
  }

  /** The actions logged for one id. */
  function Project(log: seq<LogLine>, id: string): seq<Action> {
    if log == [] then []
    else Project(log[..|log| - 1], id) + if log[|log| - 1].id == id then [log[|log| - 1].action] else []
  }

  /** The four lives a transaction can have. */
  datatype Life = CommittedLife | AbortedLate | AbortedEarly | AbortedExplicitly

  /** What a life leaves in the log. */
  function Word(life: Life): seq<Action> {
    match life
    case CommittedLife => [Begun, PrepareStart, AllPrepared, CommitStart, Committed]
    case AbortedLate => [Begun, PrepareStart, AllPrepared, CommitStart, AbortStart, Aborted]
    case AbortedEarly => [Begun, PrepareStart, AbortStart, Aborted]
    case AbortedExplicitly => [Begun, AbortExplicit, Aborted]
  }

  function Words(lives: seq<Life>): seq<Action> {
    if lives == [] then [] else Words(lives[..|lives| - 1]) + Word(lives[|lives| - 1])
  }

  /** Zero or more complete lives. */
  ghost predicate Complete(w: seq<Action>) {
    exists lives :: w == Words(lives)
  }

  /** Zero or more complete lives, then the beginning of one. */
  ghost predicate PrefixOfLives(w: seq<Action>) {
    exists lives, life, p :: p <= Word(life) && w == Words(lives) + p
  }

  /** The part of a life already logged by an active transaction in this state. */
  predicate Partial(state: TxnState, w: seq<Action>) {
    match state
    case TxnInit => w == [Begun]
    case TxnPreparing => w == [Begun, PrepareStart]
    case TxnCommitting => w == [Begun, PrepareStart, AllPrepared, CommitStart]
    case TxnAborting =>
      || w == [Begun, PrepareStart, AllPrepared, CommitStart, AbortStart]
      || w == [Begun, PrepareStart, AbortStart]
    case _ => false
  }

  /** The log line's state column is the state its action implies. */
  predicate Labelled(line: LogLine) {
    line.state == match line.action
                  case Begun => TxnInit
                  case PrepareStart => TxnPreparing
                  case AllPrepared => TxnPrepared
                  case CommitStart => TxnCommitting
                  case Committed => TxnCommitted
                  case AbortStart => TxnAborting
                  case AbortExplicit => TxnAborting
                  case Aborted => TxnAborted
  }

  // ---------------------------------------------------------------- invariant

  ghost predicate WordOk(w: seq<Action>, status: Status) {
    match status
    case Absent => Complete(w)
    case Present(state) => exists lives, p :: Partial(state, p) && w == Words(lives) + p
  }

  ghost predicate Inv(s: Sys) {
    && |s.active| <= MAX_ACTIVE_TRANSACTIONS
    && Distinct(Ids(s.active))
    && (s.hasLog ==> Ids(s.active) == Replay(s.log))
    && (s.hasLog ==> forall id :: WordOk(Project(s.log, id), Lookup(s.active, id)))
    && (forall line :: line in s.log ==> Labelled(line))
    && (!s.hasLog ==> s.log == [])
  }

  lemma {:induction false} DropAbsent(ids: seq<string>, id: string)
    requires id !in ids
    ensures Drop(ids, id) == ids
  {
    if ids != [] {
      DropAbsent(ids[1..], id);
    }
  }

  lemma HeadApart(ids: seq<string>, i: nat)
    requires 0 < i < |ids|
    ensures ids[..i] + ids[i + 1..] == [ids[0]] + (ids[1..][..i - 1] + ids[1..][i..])
  {
  }

  lemma {:induction false} DropAt(ids: seq<string>, i: nat)
    requires i < |ids| && Distinct(ids)
    ensures Drop(ids, ids[i]) == ids[..i] + ids[i + 1..]
  {
    var rest := ids[1..];
    if i == 0 {
      assert ids[0] !in rest;
      DropAbsent(rest, ids[0]);
      assert ids[..0] + rest == rest;
    } else {
      assert rest[i - 1] == ids[i] && ids[0] != ids[i];
      DropAt(rest, i - 1);
      HeadApart(ids, i);
    }
  }

  lemma {:induction false} WordsAppend(lives: seq<Life>, life: Life)
    ensures Words(lives + [life]) == Words(lives) + Word(life)
  {
    assert (lives + [life])[..|lives|] == lives;
  }

  lemma {:induction false} ProjectOne(log: seq<LogLine>, line: LogLine, id: string)
    ensures Project(log + [line], id) == Project(log, id) + if line.id == id then [line.action] else []
  {
    assert (log + [line])[..|log|] == log;
  }

  lemma {:induction false} ReplayOne(log: seq<LogLine>, line: LogLine)
    ensures Replay(log + [line]) == match line.action
                                    case Begun => Replay(log) + [line.id]
                                    case Committed => Drop(Replay(log), line.id)
                                    case Aborted => Drop(Replay(log), line.id)
                                    case _ => Replay(log)
  {
    assert (log + [line])[..|log|] == log;
  }

  /** A step writes one or two lines, all for its own id. */
  function Lines(step: Step): seq<LogLine> {
    var id := step.id;
    match step
    case BeginTxn(_) => [LogLine(id, TxnInit, Begun)]
    case StartPrepare(_) => [LogLine(id, TxnPreparing, PrepareStart)]
    case DecideCommit(_) => [LogLine(id, TxnPrepared, AllPrepared), LogLine(id, TxnCommitting, CommitStart)]
    case FinishCommit(_) => [LogLine(id, TxnCommitted, Committed)]
    case StartAbort(_) => [LogLine(id, TxnAborting, AbortStart)]
    case FinishAbort(_) => [LogLine(id, TxnAborted, Aborted)]
    case AbortNow(_) => [LogLine(id, TxnAborting, AbortExplicit), LogLine(id, TxnAborted, Aborted)]
  }

  function Actions(step: Step): seq<Action> {
    match step
    case BeginTxn(_) => [Begun]
    case StartPrepare(_) => [PrepareStart]
    case DecideCommit(_) => [AllPrepared, CommitStart]
    case FinishCommit(_) => [Committed]
    case StartAbort(_) => [AbortStart]
    case FinishAbort(_) => [Aborted]
    case AbortNow(_) => [AbortExplicit, Aborted]
  }

  lemma {:induction false} ProjectTwo(log: seq<LogLine>, a: LogLine, b: LogLine, id: string)
    requires a.id == b.id
    ensures Project(log + [a, b], id) == Project(log, id) + if a.id == id then [a.action, b.action] else []
  {
    ProjectOne(log, a, id);
    ProjectOne(log + [a], b, id);
    assert log + [a, b] == log + [a] + [b];
  }

  lemma {:induction false} ProjectLines(log: seq<LogLine>, step: Step, id: string)
    ensures Project(log + Lines(step), id) == Project(log, id) + if step.id == id then Actions(step) else []
  {
    match step
    case DecideCommit(_) => ProjectTwo(log, Lines(step)[0], Lines(step)[1], id);
    case AbortNow(_) => ProjectTwo(log, Lines(step)[0], Lines(step)[1], id);
    case _ => ProjectOne(log, Lines(step)[0], id);
  }

  lemma {:induction false} ReplayLines(log: seq<LogLine>, step: Step)
    ensures Replay(log + Lines(step))
            == match step
               case BeginTxn(_) => Replay(log) + [step.id]
               case FinishCommit(_) => Drop(Replay(log), step.id)
               case FinishAbort(_) => Drop(Replay(log), step.id)
               case AbortNow(_) => Drop(Replay(log), step.id)
               case _ => Replay(log)
  {
    var ls := Lines(step);
    ReplayOne(log, ls[0]);
    if |ls| == 2 {
      ReplayOne(log + [ls[0]], ls[1]);
      assert log + ls == log + [ls[0]] + [ls[1]];
    } else {
      assert log + ls == log + [ls[0]];
    }
  }

  // ---------------------------------------------------------------- lookups in the list

  lemma {:induction false} LookupAt(active: seq<Entry>, i: nat)
    requires i < |active| && Distinct(Ids(active))
    ensures Find(active, active[i].id) == i
  {
    var j := Find(active, active[i].id);
    assert Ids(active)[i] == active[i].id && Ids(active)[j] == active[j].id;
  }

  lemma {:induction false} LookupAppend(active: seq<Entry>, e: Entry, id: string)
    requires !Has(active, e.id)
    ensures Lookup(active + [e], id) == if id == e.id then Present(e.state) else Lookup(active, id)
  {
    var b := active + [e];
    var i := Find(active, id);
    var j := Find(b, id);
    if i < |active| {
      assert b[i].id == id;
    } else {
      assert forall m :: 0 <= m < |active| ==> b[m] == active[m];
      assert b[|active|] == e;
    }
  }

  lemma {:induction false} LookupWithState(active: seq<Entry>, id0: string, state: TxnState, id: string)
    requires Has(active, id0)
    ensures Ids(WithState(active, id0, state)) == Ids(active)
    ensures Lookup(WithState(active, id0, state), id) == if id == id0 then Present(state) else Lookup(active, id)
  {
    var b := WithState(active, id0, state);
    var i := Find(active, id);
    var j := Find(b, id);
    assert forall m :: 0 <= m < |active| ==> b[m].id == active[m].id;
    if i < |active| {
      assert b[i].id == id;
    }
  }

  lemma {:induction false} StateTwice(active: seq<Entry>, id: string, first: TxnState, second: TxnState)
    ensures WithState(WithState(active, id, first), id, second) == WithState(active, id, second)
  {
    if Has(active, id) {
      LookupWithState(active, id, first, id);
      var b, i := WithState(active, id, first), Find(active, id);
      var j := Find(b, id);
      assert b[i].id == id;
      assert j == i;
    }
  }

  lemma {:induction false} StateThenGone(active: seq<Entry>, id: string, state: TxnState)
    ensures Without(WithState(active, id, state), id) == Without(active, id)
  {
    if Has(active, id) {
      LookupWithState(active, id, state, id);
    }
  }

  lemma DistinctWithout(ids: seq<string>, k: nat)
    requires k < |ids| && Distinct(ids)
    ensures Distinct(ids[..k] + ids[k + 1..])
  {
  }

  lemma IdsWithoutAt(active: seq<Entry>, k: nat)
    requires k < |active|
    ensures Ids(active[..k] + active[k + 1..]) == Ids(active)[..k] + Ids(active)[k + 1..]
  {
  }

  lemma {:induction false} WithoutIds(active: seq<Entry>, id: string)
    requires Has(active, id) && Distinct(Ids(active))
    ensures Ids(Without(active, id)) == Drop(Ids(active), id)
    ensures Distinct(Ids(Without(active, id)))
  {
    var k, ids := Find(active, id), Ids(active);
    DropAt(ids, k);
    IdsWithoutAt(active, k);
    DistinctWithout(ids, k);
  }

  /** Removing an entry brings no id back, and the others keep theirs. */
  lemma RemovedAt(active: seq<Entry>, k: nat, b: seq<Entry>)
    requires k < |active| && b == active[..k] + active[k + 1..]
    ensures forall m :: 0 <= m < k ==> b[m] == active[m]
    ensures forall m :: k <= m < |b| ==> b[m] == active[m + 1]
  {
  }

  lemma {:induction false} NowhereIsAbsent(active: seq<Entry>, id: string)
    requires forall m :: 0 <= m < |active| ==> active[m].id != id
    ensures Lookup(active, id) == Absent
  {
  }

  lemma {:induction false} OthersStay(active: seq<Entry>, k: nat, b: seq<Entry>, i: nat)
    requires k < |active| && i < |active| && i != k && b == active[..k] + active[k + 1..] && Distinct(Ids(b))
    ensures Lookup(b, active[i].id) == Present(active[i].state)
  {
    var j := if i < k then i else i - 1;
    assert b[j] == active[i];
    LookupAt(b, j);
  }

  lemma {:induction false} LookupWithout(active: seq<Entry>, id0: string, id: string)
    requires Has(active, id0) && Distinct(Ids(active))
    ensures Lookup(Without(active, id0), id) == if id == id0 then Absent else Lookup(active, id)
  {
    var b, k := Without(active, id0), Find(active, id0);
    if id == id0 || !Has(active, id) {
      RemovedAt(active, k, b);
      OnlyOne(active, k);
      NowhereIsAbsent(b, id);
    } else {
      WithoutIds(active, id0);
      OthersStay(active, k, b, Find(active, id));
    }
  }

  lemma OnlyOne(active: seq<Entry>, k: nat)
    requires k < |active| && Distinct(Ids(active))
    ensures forall m :: 0 <= m < |active| && m != k ==> active[m].id != active[k].id
  {
    assert forall m :: 0 <= m < |active| ==> Ids(active)[m] == active[m].id;
  }

  // ---------------------------------------------------------------- preservation

  function StatusAfter(step: Step): Status {
    match step
    case BeginTxn(_) => Present(TxnInit)
    case StartPrepare(_) => Present(TxnPreparing)
    case DecideCommit(_) => Present(TxnCommitting)
    case StartAbort(_) => Present(TxnAborting)
    case _ => Absent
  }

  /** Where in its life a transaction must be for the step to be its next one. */
  predicate Fits(status: Status, step: Step) {
    match step
    case BeginTxn(_) => status == Absent
    case StartPrepare(_) => status == Present(TxnInit)
    case AbortNow(_) => status == Present(TxnInit)
    case DecideCommit(_) => status == Present(TxnPreparing)
    case StartAbort(_) => status == Present(TxnPreparing) || status == Present(TxnCommitting)
    case FinishCommit(_) => status == Present(TxnCommitting)
    case FinishAbort(_) => status == Present(TxnAborting)
  }

  /** The life a finishing step completes. */
  function Ends(p: seq<Action>, step: Step): Life {
    if step.FinishCommit? then CommittedLife
    else if step.AbortNow? then AbortedExplicitly
    else if |p| == 3 then AbortedEarly else AbortedLate
  }

  lemma PartialStep(status: Status, p: seq<Action>, step: Step)
    requires Fits(status, step)
    requires if status.Absent? then p == [] else Partial(status.state, p)
    ensures var p' := p + Actions(step);
            if StatusAfter(step).Absent? then status.Present? && p' == Word(Ends(p, step))
            else Partial(StatusAfter(step).state, p')
  {
  }

  lemma WordStep(w: seq<Action>, status: Status, step: Step)
    requires WordOk(w, status) && Fits(status, step)
    ensures WordOk(w + Actions(step), StatusAfter(step))
  {
    var lives, p;
    if status.Present? {
      lives, p :| Partial(status.state, p) && w == Words(lives) + p;
    } else {
      lives :| w == Words(lives);
      p := [];
    }
    assert w + Actions(step) == Words(lives) + (p + Actions(step));
    PartialStep(status, p, step);
    if StatusAfter(step).Absent? {
      WordsAppend(lives, Ends(p, step));
    }
  }

  /** A step moves its own transaction as expected and leaves every other one alone. */
  lemma LookupAfter(s: Sys, step: Step, id: string)
    requires Distinct(Ids(s.active)) && Enabled(s, step) && Apply(s, step) != s
    ensures Fits(Lookup(s.active, step.id), step)
    ensures Lookup(Apply(s, step).active, id) == if id == step.id then StatusAfter(step) else Lookup(s.active, id)
    ensures Apply(s, step).log == Write(s, Lines(step))
  {
    match step
    case BeginTxn(_) => LookupAppend(s.active, Entry(step.id, TxnInit), id);
    case StartPrepare(_) => LookupWithState(s.active, step.id, TxnPreparing, id);
    case DecideCommit(_) => LookupWithState(s.active, step.id, TxnCommitting, id);
    case StartAbort(_) => LookupWithState(s.active, step.id, TxnAborting, id);
    case _ => LookupWithout(s.active, step.id, id);
  }

  lemma IdsAfter(s: Sys, step: Step)
    requires Distinct(Ids(s.active)) && Enabled(s, step) && Apply(s, step) != s
    requires |s.active| <= MAX_ACTIVE_TRANSACTIONS
    ensures var s' := Apply(s, step);
            && |s'.active| <= MAX_ACTIVE_TRANSACTIONS
            && Distinct(Ids(s'.active))
            && (s.hasLog && Ids(s.active) == Replay(s.log) ==> Ids(s'.active) == Replay(s'.log))
  {
    ReplayLines(s.log, step);
    match step
    case BeginTxn(_) =>
      assert Ids(s.active + [Entry(step.id, TxnInit)]) == Ids(s.active) + [step.id];
    case StartPrepare(_) => LookupWithState(s.active, step.id, TxnPreparing, "");
    case DecideCommit(_) => LookupWithState(s.active, step.id, TxnCommitting, "");
    case StartAbort(_) => LookupWithState(s.active, step.id, TxnAborting, "");
    case _ => WithoutIds(s.active, step.id);
  }

  lemma WordOkAfter(s: Sys, step: Step, id: string)
    requires Distinct(Ids(s.active)) && Enabled(s, step) && Apply(s, step) != s && s.hasLog
    requires WordOk(Project(s.log, id), Lookup(s.active, id))
    ensures WordOk(Project(Apply(s, step).log, id), Lookup(Apply(s, step).active, id))
  {
    LookupAfter(s, step, id);
    ProjectLines(s.log, step, id);
    if id == step.id {
      WordStep(Project(s.log, id), Lookup(s.active, id), step);
    } else {
      assert Project(s.log, id) + [] == Project(s.log, id);
    }
  }

  lemma InvStep(s: Sys, step: Step)
    requires Inv(s) && Enabled(s, step)
    ensures Inv(Apply(s, step))
  {
    var s' := Apply(s, step);
    if s' != s {
      IdsAfter(s, step);
      LookupAfter(s, step, step.id);
      LabelledAfter(s, step);
      if s.hasLog {
        forall id ensures WordOk(Project(s'.log, id), Lookup(s'.active, id)) {
          WordOkAfter(s, step, id);
        }
      }
    }
  }

  lemma {:induction false} LabelledAfter(s: Sys, step: Step)
    requires forall line :: line in s.log ==> Labelled(line)
    ensures forall line :: line in Write(s, Lines(step)) ==> Labelled(line)
  {
    assert forall line :: line in Lines(step) ==> Labelled(line);
  }

  lemma InvAlways(hasLog: bool, steps: seq<Step>)
    requires IsRun(Start(hasLog), steps)
    ensures Inv(After(Start(hasLog), steps))
    ensures After(Start(hasLog), steps).hasLog == hasLog
  {
    var inv := (s: Sys) => Inv(s) && s.hasLog == hasLog;
    assert Complete([]) by {
      assert Words([]) == [];
    }
    forall s, step | inv(s) && Enabled(s, step)
      ensures inv(Apply(s, step))
    {
      InvStep(s, step);
    }
    Runs.Always(Apply, Enabled, inv, Start(hasLog), steps);
  }

  // ---------------------------------------------------------------- theorems

  /** In every reachable state the array holds each id once, is never over-full, and equals the replayed log. */
  lemma ActiveListIsReplayedLog(hasLog: bool, steps: seq<Step>)
    requires IsRun(Start(hasLog), steps)
    ensures var s := After(Start(hasLog), steps);
            && |s.active| <= MAX_ACTIVE_TRANSACTIONS
            && Distinct(Ids(s.active))
            && (hasLog ==> Ids(s.active) == Replay(s.log))
            && (forall line :: line in s.log ==> Labelled(line))
  {
    InvAlways(hasLog, steps);
  }

  lemma {:induction false} WordsEnd(lives: seq<Life>)
    requires lives != []
    ensures var w := Words(lives); w != [] && (w[|w| - 1] == Committed || w[|w| - 1] == Aborted)
  {
    var w := Word(lives[|lives| - 1]);
    assert w[|w| - 1] == Committed || w[|w| - 1] == Aborted;
  }

  lemma UnfinishedWord(lives: seq<Life>, state: TxnState, p: seq<Action>)
    requires Partial(state, p)
    ensures !Complete(Words(lives) + p)
    ensures exists life :: p <= Word(life)
  {
    var w := Words(lives) + p;
    assert w[|w| - 1] == p[|p| - 1];
    if Complete(w) {
      var others :| w == Words(others);
      WordsEnd(others);
    }
    assert p <= Word(CommittedLife) || p <= Word(AbortedLate) || p <= Word(AbortedEarly);
  }

  lemma WordOkMeans(w: seq<Action>, status: Status)
    requires WordOk(w, status)
    ensures PrefixOfLives(w)
    ensures Complete(w) <==> status == Absent
  {
    if status.Present? {
      var lives, p :| Partial(status.state, p) && w == Words(lives) + p;
      UnfinishedWord(lives, status.state, p);
    } else {
      var lives :| w == Words(lives);
      assert [] <= Word(CommittedLife) && w == Words(lives) + [];
    }
  }

  /**
    In every reachable state the log of each id is a prefix of a sequence of lives, and complete iff the id is idle.
   */
  lemma TraceLanguage(steps: seq<Step>, id: string)
    requires IsRun(Start(true), steps)
    ensures var s := After(Start(true), steps);
            var w := Project(s.log, id);
            PrefixOfLives(w) && (Complete(w) <==> !Has(s.active, id))
  {
    InvAlways(true, steps);
    var s := After(Start(true), steps);
    WordOkMeans(Project(s.log, id), Lookup(s.active, id));
  }

  // ---------------------------------------------------------------- a file that was there before

  /** The coordinator after a restart: the log is opened for appending and still holds an earlier process's lines. */
  function Restart(older: seq<LogLine>): Sys {
    Sys(true, [], older)
  }

  /** The same coordinator, except for older lines in front of the log. */
  predicate Behind(s: Sys, t: Sys, older: seq<LogLine>) {
    s.hasLog && t.hasLog && t.active == s.active && t.log == older + s.log
  }

  lemma BehindStep(s: Sys, t: Sys, older: seq<LogLine>, step: Step)
    requires Behind(s, t, older)
    ensures Enabled(s, step) == Enabled(t, step) && Behind(Apply(s, step), Apply(t, step), older)
  {
    if Apply(s, step) != s {
      assert older + (s.log + Lines(step)) == older + s.log + Lines(step);
    }
  }

  /** Older lines change nothing: the runs are the same, and the lines since the start are those of a new file. */
  lemma {:induction false} OlderLinesStay(older: seq<LogLine>, steps: seq<Step>)
    ensures IsRun(Restart(older), steps) <==> IsRun(Start(true), steps)
    ensures Behind(After(Start(true), steps), After(Restart(older), steps), older)
  {
    if steps == [] {
      assert older + [] == older;
    } else {
      var before := steps[..|steps| - 1];
      OlderLinesStay(older, before);
      BehindStep(After(Start(true), before), After(Restart(older), before), older, steps[|steps| - 1]);
    }
  }

  /** After a restart the two theorems hold of the lines since the start. */
  lemma AfterRestart(older: seq<LogLine>, steps: seq<Step>, id: string)
    requires IsRun(Restart(older), steps)
    ensures var s := After(Restart(older), steps);
            && older <= s.log
            && var since := s.log[|older|..];
               && Ids(s.active) == Replay(since)
               && PrefixOfLives(Project(since, id)) && (Complete(Project(since, id)) <==> !Has(s.active, id))
  {
    OlderLinesStay(older, steps);
    ActiveListIsReplayedLog(true, steps);
    TraceLanguage(steps, id);
    var s := After(Restart(older), steps);
    assert s.log[|older|..] == After(Start(true), steps).log;
  }
}
