/**
  The log file at every crash point inside `txn_commit` (server/transaction_coordinator.c), with other transactions
  writing to the same file.

  A crash point is a number of locked regions done, by whatever threads, and a number of lines the next region has
  written.  What a reader finds there for one id is the beginning of what its `txn_commit` logs, and it tells the
  truth about the callbacks made so far.
 */
module CrashPoints {
  import opened TwoPhase
  import opened TxnLog
  import opened Coordinator

  // ---------------------------------------------------------------- what one region writes for one id

  /** The region does something: a begin is refused when its id is active or the array is full. */
  predicate Effective(s: Sys, step: Step) {
    step.BeginTxn? ==> !Has(s.active, step.id) && |s.active| < MAX_ACTIVE_TRANSACTIONS
  }

  lemma {:induction false} RegionWrites(s: Sys, step: Step, id: string)
    requires s.hasLog
    ensures Apply(s, step).hasLog
    ensures Project(Apply(s, step).log, id)
            == Project(s.log, id) + if Effective(s, step) && step.id == id then Actions(step) else []
  {
    if Effective(s, step) {
      assert Apply(s, step).log == s.log + Lines(step);
      ProjectLines(s.log, step, id);
    } else {
      assert Project(s.log, id) + [] == Project(s.log, id);
    }
  }

  lemma AfterOne(s: Sys, run: seq<Step>, j: nat)
    requires j < |run|
    ensures After(s, run[..j + 1]) == Apply(After(s, run[..j]), run[j])
  {
    assert run[..j + 1][..j] == run[..j];
  }

  lemma {:induction false} OwnOne(run: seq<Step>, id: string, j: nat)
    requires j < |run|
    ensures Own(run[..j + 1], id) == Own(run[..j], id) + if Foreign(run[j], id) then [] else [run[j]]
  {
    assert run[..j + 1][..j] == run[..j];
  }

  lemma {:induction false} AllActionsOne(steps: seq<Step>, step: Step)
    ensures AllActions(steps + [step]) == AllActions(steps) + Actions(step)
  {
    assert (steps + [step])[..|steps|] == steps;
  }

  /** What the own regions among the first `j` wrote, and what the file then holds for the id. */
  ghost function OwnLines(run: seq<Step>, id: string, j: nat): seq<Action>
    requires j <= |run|
  {
    AllActions(Own(run[..j], id))
  }

  ghost function FileLines(s: Sys, run: seq<Step>, id: string, j: nat): seq<Action>
    requires j <= |run|
  {
    Project(After(s, run[..j]).log, id)
  }

  lemma {:induction false} OwnLinesOne(run: seq<Step>, id: string, j: nat)
    requires j < |run|
    ensures OwnLines(run, id, j + 1) == OwnLines(run, id, j) + if Foreign(run[j], id) then [] else Actions(run[j])
  {
    var own := Own(run[..j], id);
    OwnOne(run, id, j);
    if Foreign(run[j], id) {
      assert own + [] == own && AllActions(own) + [] == AllActions(own);
    } else {
      AllActionsOne(own, run[j]);
    }
  }

  lemma {:induction false} FileLinesOne(s: Sys, run: seq<Step>, id: string, j: nat)
    requires j < |run| && After(s, run[..j]).hasLog
    ensures After(s, run[..j + 1]).hasLog
    ensures FileLines(s, run, id, j + 1)
            == FileLines(s, run, id, j)
               + if Effective(After(s, run[..j]), run[j]) && run[j].id == id then Actions(run[j]) else []
  {
    AfterOne(s, run, j);
    RegionWrites(After(s, run[..j]), run[j], id);
  }

  /** One region adds its own lines to both, and a begin by another thread adds a stray line to the file only. */
  lemma {:induction false} OneRegion(s: Sys, run: seq<Step>, id: string, j: nat)
    returns (added: seq<Action>, stray: seq<Action>)
    requires j < |run| && After(s, run[..j]).hasLog
    ensures After(s, run[..j + 1]).hasLog
    ensures OwnLines(run, id, j + 1) == OwnLines(run, id, j) + added
    ensures FileLines(s, run, id, j + 1) == FileLines(s, run, id, j) + (added + stray)
    ensures stray == [] || (run[j].BeginTxn? && run[j].id == id)
    ensures run[j].BeginTxn? && run[j].id == id && Effective(After(s, run[..j]), run[j]) ==> |stray| == 1
  {
    OwnLinesOne(run, id, j);
    FileLinesOne(s, run, id, j);
    var writes := Effective(After(s, run[..j]), run[j]) && run[j].id == id;
    added := if Foreign(run[j], id) then [] else Actions(run[j]);
    stray := if Foreign(run[j], id) && writes then Actions(run[j]) else [];
    assert added + stray == if writes then Actions(run[j]) else [];
  }

  /** The file holds at least what the own regions wrote. */
  lemma {:induction false} LogAtLeast(s: Sys, run: seq<Step>, id: string, j: nat)
    requires s.hasLog && j <= |run|
    ensures After(s, run[..j]).hasLog
    ensures |FileLines(s, run, id, j)| >= |Project(s.log, id)| + |OwnLines(run, id, j)|
    decreases j
  {
    if j == 0 {
      assert run[..0] == [];
    } else {
      LogAtLeast(s, run, id, j - 1);
      var added, stray := OneRegion(s, run, id, j - 1);
    }
  }

  /** If in the end only own regions wrote lines for `id`, that was so all along. */
  lemma {:induction false} GrewAllAlong(s: Sys, run: seq<Step>, id: string, j: nat)
    requires s.hasLog && j <= |run| && LogGrew(s, After(s, run), id, Own(run, id))
    ensures FileLines(s, run, id, j) == Project(s.log, id) + OwnLines(run, id, j)
    decreases |run| - j
  {
    if j == |run| {
      assert run[..j] == run;
    } else {
      GrewAllAlong(s, run, id, j + 1);
      LogAtLeast(s, run, id, j);
      var added, stray := OneRegion(s, run, id, j);
      NothingStray(FileLines(s, run, id, j), Project(s.log, id), OwnLines(run, id, j), added, stray);
    }
  }

  lemma NothingStray(file: seq<Action>, base: seq<Action>, mine: seq<Action>, added: seq<Action>, stray: seq<Action>)
    requires file + (added + stray) == base + (mine + added) && |file| >= |base| + |mine|
    ensures stray == [] && file == base + mine
  {
    assert |file + (added + stray)| == |base + (mine + added)|;
    assert added + stray == added;
    SameSuffix(file, base, mine, added);
  }

  lemma SameSuffix(whole: seq<Action>, a: seq<Action>, b: seq<Action>, c: seq<Action>)
    requires whole + c == a + (b + c)
    ensures whole == a + b
  {
    assert whole == (whole + c)[..|whole|] && a + b == (a + (b + c))[..|a + b|];
  }

  // ---------------------------------------------------------------- the file at a crash point

  function Least(a: nat, b: nat): nat {
    if a < b then a else b
  }

  /** The file after `j` regions and the first `p` lines of the next. */
  function FileAt(s: Sys, run: seq<Step>, j: nat, p: nat): seq<LogLine>
    requires j <= |run|
  {
    var now := After(s, run[..j]);
    if j < |run| && Effective(now, run[j]) then now.log + Lines(run[j])[..Least(p, |Lines(run[j])|)] else now.log
  }

  /** The actions logged for `id` since `s`, at that point. */
  function WrittenAt(run: seq<Step>, id: string, j: nat, p: nat): seq<Action>
    requires j <= |run|
  {
    AllActions(Own(run[..j], id))
    + if j < |run| && !Foreign(run[j], id) then Actions(run[j])[..Least(p, |Actions(run[j])|)] else []
  }

  /** Lines of one id say its actions in order. */
  lemma {:induction false} LinesOfOne(ls: seq<LogLine>, acts: seq<Action>, mine: string, id: string)
    requires |ls| == |acts| && forall i :: 0 <= i < |ls| ==> ls[i].id == mine && ls[i].action == acts[i]
    ensures Project(ls, id) == if mine == id then acts else []
  {
    if ls != [] {
      var n := |ls| - 1;
      LinesOfOne(ls[..n], acts[..n], mine, id);
      assert acts == acts[..n] + [acts[n]];
    }
  }

  lemma LinesSayActions(step: Step)
    ensures |Lines(step)| == |Actions(step)|
    ensures forall i :: 0 <= i < |Lines(step)| ==>
              Lines(step)[i].id == step.id && Lines(step)[i].action == Actions(step)[i]
  {
  }

  /** Part of a region's lines, alone ... */
  lemma {:induction false} SomeLines(step: Step, id: string, p: nat)
    requires p <= |Lines(step)|
    ensures |Lines(step)| == |Actions(step)|
    ensures Project(Lines(step)[..p], id) == if step.id == id then Actions(step)[..p] else []
  {
    LinesSayActions(step);
    LinesOfOne(Lines(step)[..p], Actions(step)[..p], step.id, id);
  }

  /** ... and at the end of a log. */
  lemma {:induction false} ProjectSome(log: seq<LogLine>, step: Step, id: string, p: nat)
    requires p <= |Lines(step)|
    ensures |Lines(step)| == |Actions(step)|
    ensures Project(log + Lines(step)[..p], id)
            == Project(log, id) + if step.id == id then Actions(step)[..p] else []
  {
    SomeLines(step, id, p);
    ProjectConcat(log, Lines(step)[..p], id);
  }

  /** At every crash point the file holds, for `id`, exactly what the own regions have written by then. */
  lemma {:induction false} FileHoldsOwnLines(s: Sys, run: seq<Step>, id: string, j: nat, p: nat)
    requires s.hasLog && j <= |run| && LogGrew(s, After(s, run), id, Own(run, id))
    ensures Project(FileAt(s, run, j, p), id) == Project(s.log, id) + WrittenAt(run, id, j, p)
  {
    var mine := AllActions(Own(run[..j], id));
    GrewAllAlong(s, run, id, j);
    assert mine + [] == mine;
    if j < |run| {
      var now, step := After(s, run[..j]), run[j];
      NoStrayBegin(s, run, id, j);
      if Effective(now, step) {
        ProjectSome(now.log, step, id, Least(p, |Lines(step)|));
        assert Project(now.log, id) + [] == Project(now.log, id);
        ActionsTogether(Project(s.log, id), mine, Actions(step)[..Least(p, |Lines(step)|)]);
      }
    }
  }

  /** A begin of `id` by another thread is refused. */
  lemma {:induction false} NoStrayBegin(s: Sys, run: seq<Step>, id: string, j: nat)
    requires s.hasLog && j < |run| && LogGrew(s, After(s, run), id, Own(run, id))
    ensures run[j].BeginTxn? && run[j].id == id ==> !Effective(After(s, run[..j]), run[j])
  {
    GrewAllAlong(s, run, id, j);
    GrewAllAlong(s, run, id, j + 1);
    LogAtLeast(s, run, id, j);
    var added, stray := OneRegion(s, run, id, j);
    NothingStray(FileLines(s, run, id, j), Project(s.log, id), OwnLines(run, id, j), added, stray);
  }

  // ---------------------------------------------------------------- how far the transaction itself was

  lemma {:induction false} WrittenIsPrefix(run: seq<Step>, id: string, j: nat, p: nat)
    requires j <= |run|
    ensures WrittenAt(run, id, j, p) <= AllActions(Own(run, id))
  {
    var mine := AllActions(Own(run[..j], id));
    if j < |run| {
      OwnLinesOne(run, id, j);
      OwnLinesGrow(run, id, j + 1);
      assert WrittenAt(run, id, j, p) <= AllActions(Own(run[..j + 1], id));
    } else {
      assert run[..j] == run && mine + [] == mine;
    }
  }

  lemma {:induction false} OwnLinesGrow(run: seq<Step>, id: string, j: nat)
    requires j <= |run|
    ensures AllActions(Own(run[..j], id)) <= AllActions(Own(run, id))
  {
    assert run == run[..j] + run[j..];
    OwnConcat(run[..j], run[j..], id);
    AllActionsConcat(Own(run[..j], id), Own(run[j..], id));
  }

  /** What has been logged is the log lines of some beginning of the trace. */
  lemma {:induction false} CutAt(t: seq<Event>, logged: seq<Action>) returns (k: nat)
    requires logged <= LoggedIn(t)
    ensures k <= |t| && LoggedIn(t[..k]) == logged
  {
    if logged == LoggedIn(t) {
      k := |t|;
      assert t[..k] == t;
    } else {
      var init := t[..|t| - 1];
      assert logged <= LoggedIn(init);
      k := CutAt(init, logged);
      assert t[..k] == init[..k];
    }
  }

  lemma {:induction false} LoggedInIff(t: seq<Event>, action: Action)
    ensures action in LoggedIn(t) <==> Logged(action) in t
  {
    if t != [] {
      var init, last := t[..|t| - 1], t[|t| - 1];
      LoggedInIff(init, action);
      assert t == init + [last];
    }
  }

  /** The lines from the last BEGIN on. */
  function LastLife(w: seq<Action>): seq<Action> {
    if w == [] then []
    else if w[|w| - 1] == Begun then [Begun]
    else LastLife(w[..|w| - 1]) + [w[|w| - 1]]
  }

  lemma {:induction false} LastLifeIs(before: seq<Action>, w: seq<Action>)
    requires before != [] && before[|before| - 1] == Begun && Begun !in w
    ensures LastLife(before + w) == [Begun] + w
  {
    if w == [] {
      assert before + w == before;
    } else {
      var init := w[..|w| - 1];
      assert (before + w)[..|before + w| - 1] == before + init;
      LastLifeIs(before, init);
      assert init + [w[|w| - 1]] == w;
    }
  }

  /** The last thing the file says about the id is its BEGIN. */
  predicate JustBegun(s: Sys, id: string) {
    var w := Project(s.log, id);
    s.hasLog && w != [] && w[|w| - 1] == Begun
  }

  lemma {:induction false} ProjectConcat(a: seq<LogLine>, b: seq<LogLine>, id: string)
    ensures Project(a + b, id) == Project(a, id) + Project(b, id)
  {
    if b == [] {
      assert a + b == a;
    } else {
      var init := b[..|b| - 1];
      assert a + b == a + init + [b[|b| - 1]] && b == init + [b[|b| - 1]];
      ProjectConcat(a, init, id);
      ProjectOne(a + init, b[|b| - 1], id);
      ProjectOne(init, b[|b| - 1], id);
    }
  }

  /** That is so, in every reachable state and behind any older lines, for a transaction about to be driven. */
  lemma BeginIsLast(older: seq<LogLine>, steps: seq<Step>, id: string)
    requires IsRun(Restart(older), steps) && Lookup(After(Restart(older), steps).active, id) == Present(TxnInit)
    ensures JustBegun(After(Restart(older), steps), id)
  {
    OlderLinesStay(older, steps);
    InvAlways(true, steps);
    var since := After(Start(true), steps).log;
    assert WordOk(Project(since, id), Present(TxnInit));
    var lives, p :| Partial(TxnInit, p) && Project(since, id) == Words(lives) + p;
    ProjectConcat(older, since, id);
  }

  // ---------------------------------------------------------------- the file tells the truth

  /** What the last life of an id in the file says about the callbacks made before the crash, and in the whole run. */
  ghost predicate FileIsTruthful(life: seq<Action>, made: seq<Event>, whole: seq<Event>, n: nat) {
    && (CommitStart !in life ==> forall i: nat, rc :: Called(Commit, i, rc) !in made)
    && (Committed in life ==> forall i: nat :: i < n ==> Called(Commit, i, 0) in made)
    && (AbortStart in life && CommitStart !in life ==> forall i: nat, rc :: Called(Commit, i, rc) !in whole)
    && (CommitStart in life ==> forall i: nat :: i < n ==> Called(Prepare, i, 0) in made)
    && (AbortStart !in life ==> forall i: nat, rc :: Called(Abort, i, rc) !in made)
  }

  /** The transaction's own progress, of which `life` is the log. */
  ghost predicate Got(life: seq<Action>, trace: seq<Event>, k: nat) {
    k <= |trace| && life == [Begun] + LoggedIn(trace[..k])
  }

  lemma {:induction false} TruthOfLife<W>(ps: seq<Callbacks<W>>, id: string, w: W, life: seq<Action>, k: nat)
    requires Got(life, RunCommit(ps, id, w, true).trace, k)
    ensures var t := RunCommit(ps, id, w, true).trace; FileIsTruthful(life, t[..k], t, |ps|)
  {
    var t := RunCommit(ps, id, w, true).trace;
    WriteAheadWithLog(ps, id, w);
    assert LogIsTruthful(t[..k], t, |ps|);
    LoggedInIff(t[..k], CommitStart);
    LoggedInIff(t[..k], Committed);
    LoggedInIff(t[..k], AbortStart);
  }

  lemma {:induction false} CommitLogs<W>(ps: seq<Callbacks<W>>, id: string, w: W)
    ensures LoggedIn(RunCommit(ps, id, w, true).trace) == AllActions(CommitSteps(ps, id, w))
    ensures Begun !in AllActions(CommitSteps(ps, id, w))
  {
    LoggedInRunCommit(ps, id, w);
    ActionsOfCommitSteps(ps, id, w);
  }

  lemma NotInPrefix(a: seq<Action>, b: seq<Action>)
    requires a <= b && Begun !in b
    ensures Begun !in a
  {
  }

  /** The last life in the file is what the own regions have written so far. */
  lemma {:induction false} LifeAt(s0: Sys, s1: Sys, run: seq<Step>, id: string, own: seq<Step>, j: nat, p: nat)
    requires JustBegun(s0, id) && Ran(s0, s1, run, id, own) && j <= |run| && Begun !in AllActions(own)
    ensures LastLife(Project(FileAt(s0, run, j, p), id)) == [Begun] + WrittenAt(run, id, j, p)
    ensures WrittenAt(run, id, j, p) <= AllActions(own)
  {
    FileHoldsOwnLines(s0, run, id, j, p);
    WrittenIsPrefix(run, id, j, p);
    NotInPrefix(WrittenAt(run, id, j, p), AllActions(own));
    LastLifeIs(Project(s0.log, id), WrittenAt(run, id, j, p));
  }

  /**
    Crash anywhere inside `txn_commit`, other transactions writing to the same file: the last life of the id in the file
    is the log of some beginning of the trace, and whichever beginning it is, the file tells the truth about it.
   */
  lemma {:induction false} CrashAnywhere<W>(s0: Sys, s1: Sys, run: seq<Step>, ps: seq<Callbacks<W>>, id: string, w: W,
                                            j: nat, p: nat)
    requires JustBegun(s0, id) && Ran(s0, s1, run, id, CommitSteps(ps, id, w)) && j <= |run|
    ensures var life := LastLife(Project(FileAt(s0, run, j, p), id));
            var t := RunCommit(ps, id, w, true).trace;
            && (exists k: nat :: Got(life, t, k))
            && (forall k: nat :: Got(life, t, k) ==> FileIsTruthful(life, t[..k], t, |ps|))
  {
    var life := LastLife(Project(FileAt(s0, run, j, p), id));
    var t := RunCommit(ps, id, w, true).trace;
    CommitLogs(ps, id, w);
    LifeAt(s0, s1, run, id, CommitSteps(ps, id, w), j, p);
    var k := CutAt(t, WrittenAt(run, id, j, p));
    assert Got(life, t, k);
    forall k: nat | Got(life, t, k) ensures FileIsTruthful(life, t[..k], t, |ps|) {
      TruthOfLife(ps, id, w, life, k);
    }
  }
}
