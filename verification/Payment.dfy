/**
  One card payment, from the point where server/handler.c calls `txn_commit` with the database participant
  registered first and the clearing participant second, to the reply.
 */
module Payment {
  import opened TwoPhase
  import Database
  import Db = DbParticipant
  import Clr = ClearingParticipant
  import B = Breaker
  import Coord = Coordinator
  import TxnLog

  /** What happens around each callback; `ExactOutcome` shows that none is called twice. */
  datatype Env = Env(
    dbPrepare: Database.Env, dbCommit: Database.Env, dbAbort: Database.Env,
    clrPrepare: Clr.Env, clrCommit: Clr.Env, clrAbort: Clr.Reply)

  datatype World = World(db: Db.Side, clr: Clr.Side)

  function DbCallbacks(conn: nat, env: Env): Callbacks<World> {
    Callbacks(
      (w: World, id: string) => var (s, rc) := Db.Prepare(w.db, conn, id, env.dbPrepare); (w.(db := s), rc),
      (w: World, id: string) => var (s, rc) := Db.Commit(w.db, id, env.dbCommit); (w.(db := s), rc),
      (w: World, id: string) => var (s, rc) := Db.Abort(w.db, conn, id, env.dbAbort); (w.(db := s), rc))
  }

  function ClrCallbacks(cfg: Clr.Settings, env: Env): Callbacks<World> {
    Callbacks(
      (w: World, id: string) => var (s, rc) := Clr.Prepare(cfg, w.clr, id, env.clrPrepare); (w.(clr := s), rc),
      (w: World, id: string) => var (s, rc) := Clr.Commit(cfg, w.clr, id, env.clrCommit); (w.(clr := s), rc),
      (w: World, id: string) => var (s, rc) := Clr.Abort(w.clr, id, env.clrAbort); (w.(clr := s), rc))
  }

  function Registered(conn: nat, cfg: Clr.Settings, env: Env): seq<Callbacks<World>> {
    [DbCallbacks(conn, env), ClrCallbacks(cfg, env)]
  }

  /** txn_commit of one payment. */
  function Settle(w: World, conn: nat, cfg: Clr.Settings, id: string, env: Env, hasLog: bool): Outcome<World> {
    RunCommit(Registered(conn, cfg, env), id, w, hasLog)
  }

  /** What the handler has set up before it calls txn_commit. */
  ghost predicate Ready(w: World, conn: nat, id: string, requestId: string) {
    && Db.Open(w.db, conn, id)
    && w.clr.ctx == Clr.Ctx(id, false)
    && (requestId != "" ==> || Database.HasKey(w.db.db.pending[Database.Conn(conn)], requestId)
                            || Database.HasKey(w.db.db.committed, requestId))
  }

  /** Other sessions use other connections and, ids being unique among active transactions, other names. */
  ghost predicate Private(env: Env, conn: nat, id: string) {
    Db.Private(env.dbPrepare, conn, id) && Db.Private(env.dbCommit, conn, id) && Db.Private(env.dbAbort, conn, id)
  }

  // ---------------------------------------------------------------- the two-participant protocol, unrolled

  /** txn_commit with exactly these two participants, step by step. */
  function Unrolled(w: World, conn: nat, cfg: Clr.Settings, id: string, env: Env): (World, int) {
    var (d1, p1) := Db.Prepare(w.db, conn, id, env.dbPrepare);
    if p1 != 0 then (World(Db.Abort(d1, conn, id, env.dbAbort).0, w.clr), -1)
    else
      var (c1, p2) := Clr.Prepare(cfg, w.clr, id, env.clrPrepare);
      if p2 != 0 then (World(Db.Abort(d1, conn, id, env.dbAbort).0, Clr.Abort(c1, id, env.clrAbort).0), -1)
      else
        var (d2, r1) := Db.Commit(d1, id, env.dbCommit);
        var (c2, r2) := Clr.Commit(cfg, c1, id, env.clrCommit);
        if r1 == 0 && r2 == 0 then (World(d2, c2), 0)
        else (World(if r1 != 0 then Db.Abort(d2, conn, id, env.dbAbort).0 else d2,
                    if r2 != 0 then Clr.Abort(c2, id, env.clrAbort).0 else c2), -1)
  }

  lemma SettleUnrolls(w: World, conn: nat, cfg: Clr.Settings, id: string, env: Env, hasLog: bool)
    ensures var o := Settle(w, conn, cfg, id, env, hasLog);
            (o.world, o.rc) == Unrolled(w, conn, cfg, id, env)
  {
    var a, b := DbCallbacks(conn, env), ClrCallbacks(cfg, env);
    PreparesTwo(a, b, id, w);
    var (w1, pr) := Prepares([a, b], id, w);
    if |pr| == 1 {
      assert pr[0] != 0 && StatesAfterPrepare(2, pr) == [PartFailed, PartInit];
      AbortsTwo(a, b, PartFailed, PartInit, id, w1);
    } else if pr[1] != 0 {
      assert StatesAfterPrepare(2, pr) == [PartPrepared, PartFailed];
      AbortsTwo(a, b, PartPrepared, PartFailed, id, w1);
    } else {
      CommitsTwo(a, b, id, w1);
      var (w2, cr) := Commits([a, b], id, w1);
      var s := if cr[0] == 0 then PartCommitted else PartFailed;
      var t := if cr[1] == 0 then PartCommitted else PartFailed;
      assert StatesAfterCommit(cr) == [s, t];
      AbortsTwo(a, b, s, t, id, w2);
    }
  }

  // ---------------------------------------------------------------- quiescence

  /** The server still holds a prepared transaction under this payment's name. */
  predicate Orphaned(w: World, id: string) {
    Database.Gid(Db.GlobalName(id)) in w.db.db.pending
  }

  /** The clearing side said yes in phase one. */
  predicate HoldPlaced(w: World, cfg: Clr.Settings, id: string, env: Env) {
    Clr.Prepare(cfg, w.clr, id, env.clrPrepare).1 == 0
  }

  /** The statement fates that leave a prepared transaction behind. */
  predicate LeavesOrphan(w: World, cfg: Clr.Settings, id: string, env: Env) {
    || env.dbPrepare.fate == Database.AnswerLost
    || (&& env.dbPrepare.fate == Database.Runs
        && env.dbAbort.fate == Database.Refused
        && (!HoldPlaced(w, cfg, id, env) || env.dbCommit.fate == Database.Refused))
  }

  /** Clearing never ends a payment holding funds, and never touches the database. */
  lemma ClearingLetsGo(w: World, conn: nat, cfg: Clr.Settings, id: string, env: Env)
    requires w.clr.ctx == Clr.Ctx(id, false)
    ensures !Unrolled(w, conn, cfg, id, env).0.clr.ctx.hasHold
  {
  }

  /** The database side after txn_commit: nothing open on the connection, request ids unique. */
  lemma DatabaseLetsGo(w: World, conn: nat, cfg: Clr.Settings, id: string, requestId: string, env: Env)
    requires Ready(w, conn, id, requestId) && Private(env, conn, id)
    ensures var w' := Unrolled(w, conn, cfg, id, env).0;
            && !w'.db.ctx.inTransaction
            && Database.Conn(conn) !in w'.db.db.pending && Database.Unique(w'.db.db)
            && (Orphaned(w', id) <==> LeavesOrphan(w, cfg, id, env))
            && (Orphaned(w', id) ==>
                  w'.db.db.pending[Database.Gid(Db.GlobalName(id))] == w.db.db.pending[Database.Conn(conn)])
  {
    Db.PrepareMeans(w.db, conn, id, env.dbPrepare);
    var (d1, p1) := Db.Prepare(w.db, conn, id, env.dbPrepare);
    Db.AbortMeans(d1, conn, id, env.dbAbort);
    if p1 == 0 && HoldPlaced(w, cfg, id, env) {
      Db.CommitMeans(d1, conn, id, env.dbCommit);
      Db.AbortMeans(Db.Commit(d1, id, env.dbCommit).0, conn, id, env.dbAbort);
    }
  }

  /**
    Whatever fails, txn_commit ends with neither context holding anything, so the destroy calls that follow
    issue no statement and no request; the connection is free for the next payment; a prepared transaction survives
    exactly when LeavesOrphan says so.
   */
  lemma Quiescence(w: World, conn: nat, cfg: Clr.Settings, id: string, requestId: string, env: Env, hasLog: bool)
    requires Ready(w, conn, id, requestId) && Private(env, conn, id)
    ensures var w' := Settle(w, conn, cfg, id, env, hasLog).world;
            && !w'.db.ctx.inTransaction
            && !w'.clr.ctx.hasHold
            && (forall e :: Db.Destroy(w'.db, conn, e) == w'.db)
            && (forall r :: Clr.Destroy(w'.clr, r) == w'.clr)
            && Database.Conn(conn) !in w'.db.db.pending && Database.Unique(w'.db.db)
            && (Orphaned(w', id) <==> LeavesOrphan(w, cfg, id, env))
            && (Orphaned(w', id) ==>
                  w'.db.db.pending[Database.Gid(Db.GlobalName(id))] == w.db.db.pending[Database.Conn(conn)])
  {
    SettleUnrolls(w, conn, cfg, id, env, hasLog);
    ClearingLetsGo(w, conn, cfg, id, env);
    DatabaseLetsGo(w, conn, cfg, id, requestId, env);
  }

  /**
    What an orphan does: after a payment that leaves one, whatever other sessions do short of resolving it, every
    repetition of the request fails at its insert, on any connection.
   */
  lemma OrphanBlocksRetries(w: World, conn: nat, cfg: Clr.Settings, id: string, env: Env, hasLog: bool,
                            later: seq<Database.Stmt>, retry: Db.Side, conn': nat, row: Database.Row,
                            ins: Database.Env, sel: Database.Env)
    requires Ready(w, conn, id, row.requestId) && Private(env, conn, id) && First(w, conn, row.requestId)
    requires LeavesOrphan(w, cfg, id, env)
    requires Unresolved(later, id) && Database.AllElsewhere(ins.others, conn', Db.GlobalName(id))
    requires retry.ctx.inTransaction
    requires retry.db == Database.ExecAll(Settle(w, conn, cfg, id, env, hasLog).world.db.db, later)
    ensures Db.InsertRow(retry, conn', row, ins, sel).1 == -1
  {
    Quiescence(w, conn, cfg, id, row.requestId, env, hasLog);
    HeldUntilResolved(Settle(w, conn, cfg, id, env, hasLog).world.db.db, later, id);
    Db.HeldBlocksInsert(retry, conn', row, ins, sel, Db.GlobalName(id));
  }

  /** Nobody commits or rolls back under the payment's global name. */
  ghost predicate Unresolved(stmts: seq<Database.Stmt>, id: string) {
    forall s :: s in stmts ==>
      s != Database.CommitPrepared(Db.GlobalName(id)) && s != Database.RollbackPrepared(Db.GlobalName(id))
  }

  lemma {:induction false} HeldUntilResolved(db: Database.Db, stmts: seq<Database.Stmt>, id: string)
    requires Unresolved(stmts, id) && Database.Gid(Db.GlobalName(id)) in db.pending
    ensures var gid := Database.Gid(Db.GlobalName(id));
            var later := Database.ExecAll(db, stmts);
            gid in later.pending && later.pending[gid] == db.pending[gid]
  {
    if stmts != [] {
      var before := stmts[..|stmts| - 1];
      assert forall s :: s in before ==> s in stmts;
      HeldUntilResolved(db, before, id);
      assert stmts[|stmts| - 1] in stmts;
    }
  }

  /** During this payment the network was sent this request, as the i-th of all. */
  predicate SentMeanwhile(w: World, w': World, i: nat, req: Clr.Request) {
    |w.clr.net.sent| <= i < |w'.clr.net.sent| && w'.clr.net.sent[i] == req
  }

  /** No hold is left standing on the network: each one is followed by a release, or its settlement was acknowledged. */
  lemma HoldsAreClosed(w: World, conn: nat, cfg: Clr.Settings, id: string, requestId: string, env: Env, hasLog: bool)
    requires Ready(w, conn, id, requestId) && Private(env, conn, id)
    ensures var w' := Settle(w, conn, cfg, id, env, hasLog).world;
            forall i: nat :: SentMeanwhile(w, w', i, Clr.Request(Clr.Hold, id)) ==>
              || SettledMeanwhile(w, w', id)
              || exists j: nat :: i < j && SentMeanwhile(w, w', j, Clr.Request(Clr.Release, id))
  {
    SettleUnrolls(w, conn, cfg, id, env, hasLog);
    SplitDecision(w, conn, cfg, id, requestId, env, hasLog);
    Db.PrepareMeans(w.db, conn, id, env.dbPrepare);
    var w' := Settle(w, conn, cfg, id, env, hasLog).world;
    var sent := w'.clr.net.sent;
    forall i: nat | SentMeanwhile(w, w', i, Clr.Request(Clr.Hold, id)) && !SettledMeanwhile(w, w', id)
      ensures exists j: nat :: i < j && SentMeanwhile(w, w', j, Clr.Request(Clr.Release, id))
    {
      assert sent[|sent| - 1] == Clr.Request(Clr.Release, id);
      assert SentMeanwhile(w, w', |sent| - 1, Clr.Request(Clr.Release, id));
    }
  }

  // ---------------------------------------------------------------- who decides what

  /** During this payment the network acknowledged its settlement. */
  predicate SettledMeanwhile(w: World, w': World, id: string) {
    exists i :: |w.clr.net.acked| <= i < |w'.clr.net.acked| && w'.clr.net.acked[i] == Clr.Request(Clr.Settle, id)
  }

  /** The clearing commit, had phase two been reached, answers yes. */
  predicate SettleSucceeds(w: World, cfg: Clr.Settings, id: string, env: Env) {
    Clr.Commit(cfg, Clr.Prepare(cfg, w.clr, id, env.clrPrepare).0, id, env.clrCommit).1 == 0
  }

  /** The network carried out a settle request, answered or not, had phase two been reached. */
  predicate SettleCarriedOut(w: World, cfg: Clr.Settings, id: string, env: Env) {
    Clr.CarriedOut(cfg, Clr.Prepare(cfg, w.clr, id, env.clrPrepare).0, env.clrCommit)
  }

  /** The settlement stands: carried out, and either acknowledged or not undone by the release that then follows. */
  predicate Charges(w: World, cfg: Clr.Settings, id: string, env: Env) {
    SettleCarriedOut(w, cfg, id, env) && (SettleSucceeds(w, cfg, id, env) || !Clr.Done(env.clrAbort))
  }

  /** During this payment the network carried out a settlement, and no release after it. */
  predicate ChargedMeanwhile(w: World, w': World, id: string) {
    exists i :: && |w.clr.net.done| <= i < |w'.clr.net.done| && w'.clr.net.done[i] == Clr.Request(Clr.Settle, id)
                && Clr.Request(Clr.Release, id) !in w'.clr.net.done[i..]
  }

  predicate BothPrepared(w: World, cfg: Clr.Settings, id: string, env: Env) {
    env.dbPrepare.fate == Database.Runs && HoldPlaced(w, cfg, id, env)
  }

  /** The payment inserted its row itself: it is not a repetition of an earlier request. */
  predicate First(w: World, conn: nat, requestId: string) {
    && requestId != ""
    && Database.Conn(conn) in w.db.db.pending && Database.HasKey(w.db.db.pending[Database.Conn(conn)], requestId)
  }

  /** A committed row carries the request id. */
  predicate Recorded(w: World, requestId: string) {
    Database.HasKey(w.db.db.committed, requestId)
  }

  lemma AckedBy(cfg: Clr.Settings, w: World, id: string, env: Env)
    requires w.clr.ctx == Clr.Ctx(id, false)
    ensures var (c1, p) := Clr.Prepare(cfg, w.clr, id, env.clrPrepare);
            var (c2, r) := Clr.Commit(cfg, c1, id, env.clrCommit);
            && c1.net.acked == (if p == 0 then w.clr.net.acked + [Clr.Request(Clr.Hold, id)] else w.clr.net.acked)
            && c2.net.acked == (if r == 0 then c1.net.acked + [Clr.Request(Clr.Settle, id)] else c1.net.acked)
  {
    Clr.RetryAccounting(cfg, w.clr, Clr.Request(Clr.Hold, id), env.clrPrepare);
    var c1 := Clr.Prepare(cfg, w.clr, id, env.clrPrepare).0;
    Clr.RetryAccounting(cfg, c1, Clr.Request(Clr.Settle, id), env.clrCommit);
  }

  lemma DoneBy(cfg: Clr.Settings, w: World, id: string, env: Env)
    requires w.clr.ctx == Clr.Ctx(id, false)
    ensures var (c1, p) := Clr.Prepare(cfg, w.clr, id, env.clrPrepare);
            var (c2, r) := Clr.Commit(cfg, c1, id, env.clrCommit);
            && (exists n: nat :: c1.net.done == w.clr.net.done + Clr.Repeat(Clr.Request(Clr.Hold, id), n))
            && (p == 0 ==> exists n: nat :: && c2.net.done == c1.net.done + Clr.Repeat(Clr.Request(Clr.Settle, id), n)
                                            && (n > 0 <==> Clr.CarriedOut(cfg, c1, env.clrCommit)))
            && (p == 0 && r == 0 ==> Clr.CarriedOut(cfg, c1, env.clrCommit))
  {
    Clr.RetryAccounting(cfg, w.clr, Clr.Request(Clr.Hold, id), env.clrPrepare);
    var c1 := Clr.Prepare(cfg, w.clr, id, env.clrPrepare).0;
    Clr.RetryAccounting(cfg, c1, Clr.Request(Clr.Settle, id), env.clrCommit);
    assert w.clr.net.done + Clr.Repeat(Clr.Request(Clr.Hold, id), 0) == w.clr.net.done;
    assert c1.net.done + Clr.Repeat(Clr.Request(Clr.Settle, id), 0) == c1.net.done;
    Clr.SucceededIsDone(cfg, c1, Clr.Request(Clr.Settle, id), env.clrCommit);
  }

  /** What the network has carried out in the end, counted from what it had before. */
  lemma StandsIff(before: seq<Clr.Request>, holds: nat, settles: nat, released: bool, id: string, w: World, w': World)
    requires w.clr.net.done == before
    requires w'.clr.net.done == before + Clr.Repeat(Clr.Request(Clr.Hold, id), holds)
                                + Clr.Repeat(Clr.Request(Clr.Settle, id), settles)
                                + if released then [Clr.Request(Clr.Release, id)] else []
    ensures ChargedMeanwhile(w, w', id) <==> settles > 0 && !released
  {
    var done := w'.clr.net.done;
    if settles > 0 && !released {
      var i := |before| + holds;
      assert done[i] == Clr.Request(Clr.Settle, id);
      assert forall j :: i <= j < |done| ==> done[j] == Clr.Request(Clr.Settle, id);
    } else if released {
      forall i | |before| <= i < |done| && done[i] == Clr.Request(Clr.Settle, id)
        ensures Clr.Request(Clr.Release, id) in done[i..]
      {
        assert done[i..][|done| - 1 - i] == Clr.Request(Clr.Release, id);
      }
    }
  }

  /** Whether the customer is charged: the network's doing, heard or not. */
  lemma ChargedIff(w: World, conn: nat, cfg: Clr.Settings, id: string, requestId: string, env: Env, hasLog: bool)
    requires Ready(w, conn, id, requestId) && Private(env, conn, id)
    ensures ChargedMeanwhile(w, Settle(w, conn, cfg, id, env, hasLog).world, id)
            <==> BothPrepared(w, cfg, id, env) && Charges(w, cfg, id, env)
  {
    SettleUnrolls(w, conn, cfg, id, env, hasLog);
    Db.PrepareMeans(w.db, conn, id, env.dbPrepare);
    DoneBy(cfg, w, id, env);
    var w' := Unrolled(w, conn, cfg, id, env).0;
    var hold, settle := Clr.Request(Clr.Hold, id), Clr.Request(Clr.Settle, id);
    var before := w.clr.net.done;
    var (c1, p) := Clr.Prepare(cfg, w.clr, id, env.clrPrepare);
    var (c2, r) := Clr.Commit(cfg, c1, id, env.clrCommit);
    if env.dbPrepare.fate != Database.Runs {
      assert before == before + Clr.Repeat(hold, 0) + Clr.Repeat(settle, 0) + [];
      StandsIff(before, 0, 0, false, id, w, w');
    } else {
      var holds: nat :| c1.net.done == before + Clr.Repeat(hold, holds);
      if p != 0 {
        assert c1.net.done == c1.net.done + Clr.Repeat(settle, 0) && c1.net.done + [] == c1.net.done;
        StandsIff(before, holds, 0, Clr.Done(env.clrAbort), id, w, w');
      } else {
        var settles: nat :| && c2.net.done == c1.net.done + Clr.Repeat(settle, settles)
                            && (settles > 0 <==> Clr.CarriedOut(cfg, c1, env.clrCommit));
        assert c2.net.done + [] == c2.net.done;
        StandsIff(before, holds, settles, r != 0 && Clr.Done(env.clrAbort), id, w, w');
      }
    }
  }

  /** The clearing half of a decision. */
  lemma ClearingDecides(w: World, conn: nat, cfg: Clr.Settings, id: string, env: Env)
    requires w.clr.ctx == Clr.Ctx(id, false)
    requires Db.Prepare(w.db, conn, id, env.dbPrepare).1 == 0 <==> env.dbPrepare.fate == Database.Runs
    ensures SettledMeanwhile(w, Unrolled(w, conn, cfg, id, env).0, id)
            <==> BothPrepared(w, cfg, id, env) && SettleSucceeds(w, cfg, id, env)
  {
    AckedBy(cfg, w, id, env);
    var c1 := Clr.Prepare(cfg, w.clr, id, env.clrPrepare).0;
    var c2 := Clr.Commit(cfg, c1, id, env.clrCommit).0;
    if BothPrepared(w, cfg, id, env) && SettleSucceeds(w, cfg, id, env) {
      assert c2.net.acked[|c1.net.acked|] == Clr.Request(Clr.Settle, id);
    }
  }

  /**
    The database half: once both have prepared, the row is committed exactly when COMMIT PREPARED reached the server.
   */
  lemma DatabaseDecides(w: World, conn: nat, cfg: Clr.Settings, id: string, requestId: string, env: Env)
    requires Ready(w, conn, id, requestId) && Private(env, conn, id) && BothPrepared(w, cfg, id, env)
    ensures var w' := Unrolled(w, conn, cfg, id, env).0;
            && (First(w, conn, requestId) ==> (Recorded(w', requestId) <==> env.dbCommit.fate != Database.Refused))
            && (env.dbCommit.fate != Database.Refused ==>
                  forall row :: row in w.db.db.pending[Database.Conn(conn)] ==> row in w'.db.db.committed)
  {
    var w' := Unrolled(w, conn, cfg, id, env).0;
    var mine := w.db.db.pending[Database.Conn(conn)];
    Db.PrepareMeans(w.db, conn, id, env.dbPrepare);
    var d1 := Db.Prepare(w.db, conn, id, env.dbPrepare).0;
    Db.CommitMeans(d1, conn, id, env.dbCommit);
    var d2 := Db.Commit(d1, id, env.dbCommit).0;
    Db.AbortMeans(d2, conn, id, env.dbAbort);
    if env.dbCommit.fate == Database.Refused {
      if First(w, conn, requestId) {
        Db.RollbackCommitsNothing(d2, conn, id, requestId, env.dbAbort);
      }
    } else if First(w, conn, requestId) {
      var i :| 0 <= i < |mine| && mine[i].requestId == requestId;
      assert mine[i] in d2.db.committed && d2.db.committed <= w'.db.db.committed;
      var k :| 0 <= k < |w'.db.db.committed| && w'.db.db.committed[k] == mine[i];
    }
  }

  /**
    The two sides decide on their own in phase two: the network settles exactly when it says yes, whatever the
    database did; the row is committed exactly when COMMIT PREPARED reached the server, whatever the network did; and
    the payment is approved exactly when both say yes and are heard.
   */
  lemma SplitDecision(w: World, conn: nat, cfg: Clr.Settings, id: string, requestId: string, env: Env, hasLog: bool)
    requires Ready(w, conn, id, requestId) && Private(env, conn, id)
    ensures var o := Settle(w, conn, cfg, id, env, hasLog);
            var both := BothPrepared(w, cfg, id, env);
            && (SettledMeanwhile(w, o.world, id) <==> both && SettleSucceeds(w, cfg, id, env))
            && (o.rc == 0 <==> both && SettleSucceeds(w, cfg, id, env) && env.dbCommit.fate == Database.Runs)
            && (o.rc == 0 || o.rc == -1)
            && (both && First(w, conn, requestId) ==>
                  (Recorded(o.world, requestId) <==> env.dbCommit.fate != Database.Refused))
            && (both && env.dbCommit.fate != Database.Refused ==>
                  forall row :: row in w.db.db.pending[Database.Conn(conn)] ==> row in o.world.db.db.committed)
  {
    SettleUnrolls(w, conn, cfg, id, env, hasLog);
    Db.PrepareMeans(w.db, conn, id, env.dbPrepare);
    ClearingDecides(w, conn, cfg, id, env);
    if BothPrepared(w, cfg, id, env) {
      Db.CommitMeans(Db.Prepare(w.db, conn, id, env.dbPrepare).0, conn, id, env.dbCommit);
      DatabaseDecides(w, conn, cfg, id, requestId, env);
    }
  }

  /**
    Once both have prepared, the two sides agree, charged and recorded or neither, exactly when the settlement stands
    and COMMIT PREPARED arrived, or neither did.  They part in two ways: charged without a row, and recorded without a
    charge.  A payment both sides carried out is still declined when either answer is lost.
   */
  lemma SidesAgreeIff(w: World, conn: nat, cfg: Clr.Settings, id: string, requestId: string, env: Env, hasLog: bool)
    requires Ready(w, conn, id, requestId) && Private(env, conn, id) && First(w, conn, requestId)
    requires BothPrepared(w, cfg, id, env)
    ensures var o := Settle(w, conn, cfg, id, env, hasLog);
            var charged, recorded := ChargedMeanwhile(w, o.world, id), Recorded(o.world, requestId);
            var stands, fate := Charges(w, cfg, id, env), env.dbCommit.fate;
            && ((charged <==> recorded) <==> (stands <==> fate != Database.Refused))
            && (charged && !recorded && o.rc == -1 <==> stands && fate == Database.Refused)
            && (!charged && recorded && o.rc == -1 <==> !stands && fate != Database.Refused)
            && (charged && recorded && o.rc == -1
                <==> stands && fate != Database.Refused
                     && (fate == Database.AnswerLost || !SettleSucceeds(w, cfg, id, env)))
  {
    SplitDecision(w, conn, cfg, id, requestId, env, hasLog);
    ChargedIff(w, conn, cfg, id, requestId, env, hasLog);
    DoneBy(cfg, w, id, env);
  }

  /** The worst split needs nothing more: money moved, no row, and the customer told no. */
  lemma ChargedWithoutRowIff(w: World, conn: nat, cfg: Clr.Settings, id: string, requestId: string, env: Env,
                             hasLog: bool)
    requires Ready(w, conn, id, requestId) && Private(env, conn, id) && First(w, conn, requestId)
    ensures var o := Settle(w, conn, cfg, id, env, hasLog);
            ChargedMeanwhile(w, o.world, id) && !Recorded(o.world, requestId)
            <==> && BothPrepared(w, cfg, id, env) && Charges(w, cfg, id, env)
                 && env.dbCommit.fate == Database.Refused
    ensures var o := Settle(w, conn, cfg, id, env, hasLog);
            ChargedMeanwhile(w, o.world, id) && !Recorded(o.world, requestId) ==> o.rc == -1
  {
    SplitDecision(w, conn, cfg, id, requestId, env, hasLog);
    ChargedIff(w, conn, cfg, id, requestId, env, hasLog);
  }

  // ---------------------------------------------------------------- a payment on which they part

  const CARD := Database.Row("r1", "411111******1111", "10.00", "APPROVED")

  /** One row inserted on connection 0, nothing said to the network yet. */
  const ABOUT_TO_COMMIT := World(
    Db.Side(Db.Ctx("t1", true), Database.Db([], map[Database.Conn(0) := [CARD]])),
    Clr.Side(Clr.Ctx("t1", false), Clr.Network([], [], []), B.START))

  const SETTINGS := Clr.Settings(B.Config(30, 5, 20), 2)

  /** A clearing call answered at once by `reply`. */
  function AtOnce(reply: Clr.Reply): Clr.Env {
    Clr.Env([], 1, [reply], [], 1)
  }

  /** The database loses COMMIT PREPARED; the network answers the hold with yes and the settlement with `settle`. */
  function CommitLost(settle: Clr.Reply, release: Clr.Reply): Env {
    Env(Database.Env([], Database.Runs), Database.Env([], Database.Refused), Database.Env([], Database.Runs),
        AtOnce(Clr.Answered(true)), AtOnce(settle), release)
  }

  lemma AboutToCommitIsReady(env: Env)
    requires env.dbPrepare.others == env.dbCommit.others == env.dbAbort.others == []
    ensures Ready(ABOUT_TO_COMMIT, 0, "t1", "r1") && Private(env, 0, "t1") && First(ABOUT_TO_COMMIT, 0, "r1")
  {
    assert ABOUT_TO_COMMIT.db.db.pending[Database.Conn(0)][0].requestId == "r1";
  }

  /** Money does move without a row while the reply is no: settled and acknowledged, COMMIT PREPARED lost. */
  lemma ChargedWithoutRow(hasLog: bool)
    ensures var env := CommitLost(Clr.Answered(true), Clr.Answered(true));
            var o := Settle(ABOUT_TO_COMMIT, 0, SETTINGS, "t1", env, hasLog);
            ChargedMeanwhile(ABOUT_TO_COMMIT, o.world, "t1") && !Recorded(o.world, "r1") && o.rc == -1
  {
    var env := CommitLost(Clr.Answered(true), Clr.Answered(true));
    AboutToCommitIsReady(env);
    ChargedWithoutRowIff(ABOUT_TO_COMMIT, 0, SETTINGS, "t1", "r1", env, hasLog);
    DoneBy(SETTINGS, ABOUT_TO_COMMIT, "t1", env);
  }

  /** Even unheard: the settlement is carried out, its answer lost, and the release that follows gets nowhere. */
  lemma ChargedUnheard(hasLog: bool)
    ensures var env := CommitLost(Clr.NoAnswer(true), Clr.NoAnswer(false));
            var o := Settle(ABOUT_TO_COMMIT, 0, SETTINGS, "t1", env, hasLog);
            && ChargedMeanwhile(ABOUT_TO_COMMIT, o.world, "t1") && !SettledMeanwhile(ABOUT_TO_COMMIT, o.world, "t1")
            && !Recorded(o.world, "r1") && o.rc == -1
  {
    var env := CommitLost(Clr.NoAnswer(true), Clr.NoAnswer(false));
    AboutToCommitIsReady(env);
    assert Clr.TimesDone(SETTINGS, env.clrCommit) > 0;
    ChargedWithoutRowIff(ABOUT_TO_COMMIT, 0, SETTINGS, "t1", "r1", env, hasLog);
    SplitDecision(ABOUT_TO_COMMIT, 0, SETTINGS, "t1", "r1", env, hasLog);
  }

  // ---------------------------------------------------------------- approval

  /**
    An approved payment: the network acknowledged its settlement during it and one committed row carries its request
    id.
   */
  lemma ApprovedIsSettled(w: World, conn: nat, cfg: Clr.Settings, id: string, requestId: string, env: Env, hasLog: bool)
    requires Ready(w, conn, id, requestId) && Private(env, conn, id)
    requires Settle(w, conn, cfg, id, env, hasLog).rc == 0
    ensures var w' := Settle(w, conn, cfg, id, env, hasLog).world;
            && SettledMeanwhile(w, w', id)
            && (requestId != "" ==> Database.RowsFor(w'.db.db.committed, requestId) == 1)
            && !Orphaned(w', id)
  {
    SettleUnrolls(w, conn, cfg, id, env, hasLog);
    SplitDecision(w, conn, cfg, id, requestId, env, hasLog);
    Db.PrepareMeans(w.db, conn, id, env.dbPrepare);
    var d1 := Db.Prepare(w.db, conn, id, env.dbPrepare).0;
    Db.CommitMeans(d1, conn, id, env.dbCommit);
    var d2 := Db.Commit(d1, id, env.dbCommit).0;
    if requestId != "" {
      Database.ExactlyOne(d2.db.committed, requestId);
      if !First(w, conn, requestId) {
        var before := w.db.db.committed;
        var i :| 0 <= i < |before| && before[i].requestId == requestId;
        assert before <= d2.db.committed && d2.db.committed[i].requestId == requestId;
      }
    }
  }

  // ---------------------------------------------------------------- before and after txn_commit

  /** The handler's set-up: contexts start empty; BEGIN, remember the id, insert the row. */
  function SetUp(db: Database.Db, clr: Clr.Side, conn: nat, id: string, row: Database.Row,
                 env: SetUpEnv): (World, int, bool) {
    var (d1, b) := Db.BeginTxn(Db.Side(Db.Ctx("", false), db), conn, id, env.begin);
    var c1 := clr.(ctx := Clr.Ctx("", false));
    if b != 0 then (World(d1, c1), -1, false)
    else
      var c2 := Clr.SetTransaction(c1, id);
      var (d2, rc, isDup) := Db.InsertRow(d1, conn, row, env.ins, env.sel);
      (World(d2, c2), rc, isDup)
  }

  /** What happens around the statements of the set-up. */
  datatype SetUpEnv = SetUpEnv(begin: Database.Env, ins: Database.Env, sel: Database.Env)

  ghost predicate SetUpPrivate(env: SetUpEnv, conn: nat, id: string) {
    Db.Private(env.begin, conn, id) && Db.Private(env.ins, conn, id) && Db.Private(env.sel, conn, id)
  }

  /** The connection is free, and so is the global name the payment will use. */
  ghost predicate Clean(db: Database.Db, conn: nat, id: string) {
    && Database.Unique(db)
    && Database.Conn(conn) !in db.pending && Database.Gid(Db.GlobalName(id)) !in db.pending
  }

  /** The server the insert of the set-up meets. */
  function AtInsert(db: Database.Db, conn: nat, env: SetUpEnv): Database.Db {
    Database.ExecAll(Database.Run(db, Database.Begin(conn), env.begin).0, env.ins.others)
  }

  /**
    When the set-up succeeds, and what it leaves: a transaction that holds exactly this row, or for a repetition of a
    recorded request none.
   */
  lemma SetUpMeans(db: Database.Db, clr: Clr.Side, conn: nat, id: string, row: Database.Row, env: SetUpEnv)
    requires Clean(db, conn, id) && SetUpPrivate(env, conn, id)
    ensures var (w, rc, isDup) := SetUp(db, clr, conn, id, row, env);
            var d := AtInsert(db, conn, env);
            && (rc == 0 <==> && env.begin.fate == Database.Runs && env.ins.fate == Database.Runs
                             && Database.Insertable(d, conn, row)
                             && (Db.Repeats(d, conn, row) ==> env.sel.fate == Database.Runs))
            && (isDup <==> rc == 0 && Db.Repeats(d, conn, row))
            && (w.db.ctx.inTransaction <==> env.begin.fate == Database.Runs)
            && w.clr.net == clr.net
            && (rc == 0 ==> && Db.Open(w.db, conn, id) && w.clr.ctx == Clr.Ctx(id, false)
                            && w.db.db.pending[Database.Conn(conn)] == (if isDup then [] else [row])
                            && (isDup ==> Recorded(w, row.requestId)))
  {
    var s := Db.Side(Db.Ctx("", false), db);
    Db.BeginMeans(s, conn, id, env.begin);
    var (d1, b) := Db.BeginTxn(s, conn, id, env.begin);
    if b == 0 {
      Db.InsertMeans(d1, conn, row, env.ins, env.sel, Db.GlobalName(id));
    }
  }

  /** A successful set-up leaves the payment ready for txn_commit, and sends nothing to the network. */
  lemma SetUpIsReady(db: Database.Db, clr: Clr.Side, conn: nat, id: string, row: Database.Row, env: SetUpEnv)
    requires Clean(db, conn, id) && SetUpPrivate(env, conn, id)
    requires SetUp(db, clr, conn, id, row, env).1 == 0
    ensures Ready(SetUp(db, clr, conn, id, row, env).0, conn, id, row.requestId)
    ensures SetUp(db, clr, conn, id, row, env).0.clr.net == clr.net
  {
    SetUpMeans(db, clr, conn, id, row, env);
    var (w, rc, isDup) := SetUp(db, clr, conn, id, row, env);
    if !isDup {
      assert w.db.db.pending[Database.Conn(conn)][0] == row;
    }
  }

  datatype Reply = Approved(txnId: string, idempotent: bool) | Declined(reason: string)

  const TXN_INIT_FAILED := "txn_init_failed"
  const DB_BEGIN_FAILED := "db_begin_failed"
  const DB_ERROR := "db_error"
  const COMMIT_FAILED := "commit_failed"

  /** Both sides vote yes, both say yes to the commit, and both are heard. */
  predicate GoesThrough(w: World, cfg: Clr.Settings, id: string, env: Env) {
    BothPrepared(w, cfg, id, env) && SettleSucceeds(w, cfg, id, env) && env.dbCommit.fate == Database.Runs
  }

  /** What the reply APPROVED stands for. */
  ghost predicate Carried(w: World, w': World, id: string, requestId: string) {
    && SettledMeanwhile(w, w', id)
    && (requestId != "" ==> Database.RowsFor(w'.db.db.committed, requestId) == 1)
    && !Orphaned(w', id)
  }

  /** Nothing of the payment is left in the contexts or on the connection. */
  ghost predicate Quiet(w: World, conn: nat) {
    && !w.db.ctx.inTransaction && !w.clr.ctx.hasHold
    && Database.Conn(conn) !in w.db.db.pending && Database.Unique(w.db.db)
  }

  /** The handler from txn_commit on: commit, destroy both contexts, reply; a failure is queued for reversal. */
  method FinishPayment(coord: Coord.Coordinator<World>, txn: Coord.Transaction<World>, w0: World, conn: nat,
                       cfg: Clr.Settings, env: Env, dbDestroy: Database.Env, clrDestroy: Clr.Reply,
                       isDup: bool, requestId: string)
    returns (reply: Reply, w: World, reversal: bool)
    requires coord.Driving(txn, TxnInit)
    requires Coord.CallbacksOf(txn.participants) == Registered(conn, cfg, env)
    requires forall i :: 0 <= i < |txn.participants| ==> txn.participants[i].state == PartInit
    requires Ready(w0, conn, txn.id, requestId) && Private(env, conn, txn.id)
    modifies coord, coord.active, txn
    ensures coord.Valid()
    ensures w == Settle(w0, conn, cfg, txn.id, env, coord.hasLog).world
    ensures Quiet(w, conn)
    ensures Orphaned(w, txn.id) <==> LeavesOrphan(w0, cfg, txn.id, env)
    ensures reply.Approved? <==> GoesThrough(w0, cfg, txn.id, env)
    ensures reply == if reply.Approved? then Approved(txn.id, isDup) else Declined(COMMIT_FAILED)
    ensures reply.Approved? ==> Carried(w0, w, txn.id, requestId)
    ensures reply.Approved? ==> forall r :: r in w0.db.db.pending[Database.Conn(conn)] ==> r in w.db.db.committed
    ensures !TxnLog.Has(coord.entries, txn.id)
    ensures reversal <==> !reply.Approved?
  {
    var rc;
    ghost var trace, run;
    rc, w, trace, run := coord.Commit(txn, w0);
    Quiescence(w0, conn, cfg, txn.id, requestId, env, coord.hasLog);
    SplitDecision(w0, conn, cfg, txn.id, requestId, env, coord.hasLog);
    w := w.(db := Db.Destroy(w.db, conn, dbDestroy));
    w := w.(clr := Clr.Destroy(w.clr, clrDestroy));
    if rc == 0 {
      ApprovedIsSettled(w0, conn, cfg, txn.id, requestId, env, coord.hasLog);
      return Approved(txn.id, isDup), w, false;
    }
    return Declined(COMMIT_FAILED), w, true;
  }

  /** The registration of both participants, database first. */
  method RegisterBoth(txn: Coord.Transaction<World>, conn: nat, cfg: Clr.Settings, env: Env)
    requires txn.participants == []
    modifies txn`participants
    ensures Coord.CallbacksOf(txn.participants) == Registered(conn, cfg, env)
    ensures forall i :: 0 <= i < |txn.participants| ==> txn.participants[i].state == PartInit
  {
    var first := txn.Register("database", DbCallbacks(conn, env));
    var second := txn.Register("clearing", ClrCallbacks(cfg, env));
  }

  /** txn_begin and the registrations. */
  method BeginPayment(coord: Coord.Coordinator<World>, conn: nat, cfg: Clr.Settings, id: string, env: Env)
    returns (txn: Coord.Transaction?<World>)
    requires coord.Valid() && |id| < TxnLog.MAX_TRANSACTION_ID_LEN
    modifies coord, coord.active
    ensures coord.Valid()
    ensures txn == null
            <==> TxnLog.Has(old(coord.entries), id) || |old(coord.entries)| == TxnLog.MAX_ACTIVE_TRANSACTIONS
    ensures txn != null ==> && fresh(txn) && txn.id == id && coord.Driving(txn, TxnInit)
                            && Coord.CallbacksOf(txn.participants) == Registered(conn, cfg, env)
                            && forall i :: 0 <= i < |txn.participants| ==> txn.participants[i].state == PartInit
  {
    txn := coord.Begin(id);
    if txn != null {
      TxnLog.LookupAppend(old(coord.entries), TxnLog.Entry(id, TxnInit), id);
      RegisterBoth(txn, conn, cfg, env);
    }
  }

  /**
    One payment on a free connection, from txn_begin to the reply.  Approved means settled and recorded; declined after
    txn_commit means a reversal is queued; either way the connection is free again for the next payment.
   */
  method HandlePayment(coord: Coord.Coordinator<World>, db: Database.Db, clr: Clr.Side, conn: nat, cfg: Clr.Settings,
                       id: string, row: Database.Row, setUp: SetUpEnv, env: Env,
                       dbDestroy: Database.Env, clrDestroy: Clr.Reply)
    returns (reply: Reply, w: World, reversal: bool)
    requires coord.Valid() && |id| < TxnLog.MAX_TRANSACTION_ID_LEN
    requires Clean(db, conn, id) && SetUpPrivate(setUp, conn, id) && Private(env, conn, id)
    modifies coord, coord.active
    ensures coord.Valid()
    ensures reply == Declined(TXN_INIT_FAILED)
            <==> TxnLog.Has(old(coord.entries), id) || |old(coord.entries)| == TxnLog.MAX_ACTIVE_TRANSACTIONS
    ensures reply != Declined(TXN_INIT_FAILED) ==>
              var (w0, rc, isDup) := SetUp(db, clr, conn, id, row, setUp);
              && reply == (if setUp.begin.fate != Database.Runs then Declined(DB_BEGIN_FAILED)
                           else if rc != 0 then Declined(DB_ERROR)
                           else if GoesThrough(w0, cfg, id, env) then Approved(id, isDup)
                           else Declined(COMMIT_FAILED))
              && (reply.Approved? && !isDup ==> row in w.db.db.committed)
              && (reply.Approved? && isDup ==> Recorded(w0, row.requestId))
              && !TxnLog.Has(coord.entries, id)
    ensures reply.Approved? ==> Carried(World(Db.Side(Db.Ctx("", false), db), clr), w, id, row.requestId)
    ensures reply.Approved? || reply == Declined(COMMIT_FAILED) ==> Quiet(w, conn)
    ensures reversal <==> reply == Declined(COMMIT_FAILED)
  {
    w := World(Db.Side(Db.Ctx("", false), db), clr);
    var txn := BeginPayment(coord, conn, cfg, id, env);
    if txn == null {
      return Declined(TXN_INIT_FAILED), w, false;
    }
    ghost var others := coord.OtherThreads(txn, TxnInit);
    var (w0, rc, isDup) := SetUp(db, clr, conn, id, row, setUp);
    SetUpMeans(db, clr, conn, id, row, setUp);
    if rc != 0 {
      w := World(Db.Destroy(w0.db, conn, dbDestroy), Clr.Destroy(w0.clr, clrDestroy));
      ghost var events;
      w, events := coord.AbortTxn(txn, w);
      return Declined(if w0.db.ctx.inTransaction then DB_ERROR else DB_BEGIN_FAILED), w, false;
    }
    SetUpIsReady(db, clr, conn, id, row, setUp);
    assert !isDup ==> row in w0.db.db.pending[Database.Conn(conn)];
    reply, w, reversal := FinishPayment(coord, txn, w0, conn, cfg, env, dbDestroy, clrDestroy, isDup, row.requestId);
  }
}
