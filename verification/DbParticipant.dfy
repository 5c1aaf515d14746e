/**
  The database participant (server/db_participant.c): BEGIN, PREPARE TRANSACTION, COMMIT PREPARED and
  ROLLBACK [PREPARED] on one connection.
 */
module DbParticipant {
  import opened Database

  /** The participant's context. */
  datatype Ctx = Ctx(currentId: string, inTransaction: bool)

  /** The context and the server it talks to. */
  datatype Side = Side(ctx: Ctx, db: Db)

  /** The name of a prepared transaction; different ids have different names. */
  function GlobalName(id: string): (name: string)
    ensures |name| == 5 + |id| && name[..5] == "visa_" && name[5..] == id
  {
    "visa_" + id
  }

  function BeginTxn(s: Side, conn: nat, id: string, env: Env): (Side, int) {
    if s.ctx.inTransaction then (s, -1)
    else
      var (d, ok) := Run(s.db, Begin(conn), env);
      if ok then (Side(Ctx(id, true), d), 0) else (s.(db := d), -1)
  }

  /**
    db_participant_insert_transaction over db_insert_or_get_by_reqid: INSERT ... ON CONFLICT DO NOTHING and, when
    nothing was inserted, SELECT of the existing row.  Returns the side, the code and the duplicate flag.
   */
  function InsertRow(s: Side, conn: nat, row: Row, ins: Env, sel: Env): (Side, int, bool) {
    if !s.ctx.inTransaction then (s, -1, false)
    else
      var before := ExecAll(s.db, ins.others);
      var (d, ok) := Run(s.db, Insert(conn, row), ins);
      if !ok then (s.(db := d), -1, false)
      else if !Conflicts(before, conn, row) then (s.(db := d), 0, false)
      else
        var d' := ExecAll(d, sel.others);
        if sel.fate == Runs && RowsFor(Visible(d', conn), row.requestId) == 1 then (s.(db := d'), 0, true)
        else (s.(db := d'), -1, false)
  }

  /** The rows a SELECT on this connection sees. */
  function Visible(db: Db, conn: nat): seq<Row> {
    db.committed + if Conn(conn) in db.pending then db.pending[Conn(conn)] else []
  }

  function Prepare(s: Side, conn: nat, id: string, env: Env): (Side, int) {
    if !s.ctx.inTransaction || s.ctx.currentId != id then (s, -1)
    else
      var (d, ok) := Run(s.db, PrepareTransaction(conn, GlobalName(id)), env);
      if ok then (Side(s.ctx.(inTransaction := false), d), 0) else (s.(db := d), -1)
  }

  function Commit(s: Side, id: string, env: Env): (Side, int) {
    var (d, ok) := Run(s.db, CommitPrepared(GlobalName(id)), env);
    if ok then (Side(s.ctx.(currentId := ""), d), 0) else (s.(db := d), -1)
  }

  function Abort(s: Side, conn: nat, id: string, env: Env): (Side, int) {
    var active := s.ctx.inTransaction && s.ctx.currentId == id;
    var (d, _) := Run(s.db, if active then Rollback(conn) else RollbackPrepared(GlobalName(id)), env);
    (Side(Ctx("", s.ctx.inTransaction && !active), d), 0)
  }

  function Destroy(s: Side, conn: nat, env: Env): Side {
    if s.ctx.inTransaction then Abort(s, conn, s.ctx.currentId, env).0 else s
  }

  // ---------------------------------------------------------------- what each call means for the server

  /** Other sessions use other connections and other global names. */
  ghost predicate Private(env: Env, conn: nat, id: string) {
    AllElsewhere(env.others, conn, GlobalName(id))
  }

  /** The context's transaction is open on its connection and its global name is free. */
  ghost predicate Open(s: Side, conn: nat, id: string) {
    s.ctx == Ctx(id, true) && Unique(s.db) && Conn(conn) in s.db.pending && Gid(GlobalName(id)) !in s.db.pending
  }

  /**
    PREPARE TRANSACTION moves the open transaction under the global name unless it is refused; the context leaves it
    only when the answer is yes.
   */
  ghost predicate Prepared(s: Side, t: Side, rc: int, conn: nat, id: string, fate: Fate)
    requires Conn(conn) in s.db.pending
  {
    var gid := Gid(GlobalName(id));
    && (rc == 0 <==> fate == Runs)
    && t.ctx == Ctx(id, rc != 0)
    && s.db.committed <= t.db.committed && Unique(t.db)
    && Conn(conn) !in t.db.pending
    && (gid in t.db.pending <==> fate != Refused)
    && (gid in t.db.pending ==> t.db.pending[gid] == s.db.pending[Conn(conn)])
  }

  /** The transaction waits under its global name. */
  ghost predicate Waiting(s: Side, conn: nat, id: string) {
    Unique(s.db) && Gid(GlobalName(id)) in s.db.pending && Conn(conn) !in s.db.pending
  }

  /** COMMIT PREPARED makes the waiting rows committed unless it is refused, whether or not the answer arrives. */
  ghost predicate CommittedAs(s: Side, t: Side, rc: int, conn: nat, id: string, fate: Fate)
    requires Gid(GlobalName(id)) in s.db.pending
  {
    var gid := Gid(GlobalName(id));
    && (rc == 0 <==> fate == Runs)
    && t.ctx.inTransaction == s.ctx.inTransaction
    && s.db.committed <= t.db.committed && Unique(t.db)
    && Conn(conn) !in t.db.pending
    && (gid in t.db.pending <==> fate == Refused)
    && (fate == Refused ==> t.db.pending[gid] == s.db.pending[gid])
    && (fate != Refused ==> forall row :: row in s.db.pending[gid] ==> row in t.db.committed)
  }

  /**
    The abort rolls back what the context says is there, so a waiting transaction survives when the context still said
    open, or when its rollback is refused.
   */
  ghost predicate RolledBack(s: Side, t: Side, conn: nat, id: string, fate: Fate) {
    var gid := Gid(GlobalName(id));
    && t.ctx == Ctx("", false)
    && s.db.committed <= t.db.committed && Unique(t.db)
    && (Conn(conn) in t.db.pending <==> Conn(conn) in s.db.pending && !(s.ctx.inTransaction && fate != Refused))
    && (gid in t.db.pending <==> gid in s.db.pending && (s.ctx.inTransaction || fate == Refused))
    && (gid in t.db.pending ==> t.db.pending[gid] == s.db.pending[gid])
  }

  lemma PrepareMeans(s: Side, conn: nat, id: string, env: Env)
    requires Open(s, conn, id) && Private(env, conn, id)
    ensures var (t, rc) := Prepare(s, conn, id, env); Prepared(s, t, rc, conn, id, env.fate)
  {
    var name := GlobalName(id);
    OthersDoNotDisturb(s.db, env.others, conn, name);
    var d := ExecAll(s.db, env.others);
    assert Conn(conn) in d.pending && Gid(name) !in d.pending;
    ExecKeepsUnique(d, PrepareTransaction(conn, name));
  }

  lemma CommitMeans(s: Side, conn: nat, id: string, env: Env)
    requires Waiting(s, conn, id) && Private(env, conn, id)
    ensures var (t, rc) := Commit(s, id, env); CommittedAs(s, t, rc, conn, id, env.fate)
  {
    var name := GlobalName(id);
    OthersDoNotDisturb(s.db, env.others, conn, name);
    ExecKeepsUnique(ExecAll(s.db, env.others), CommitPrepared(name));
  }

  lemma AbortMeans(s: Side, conn: nat, id: string, env: Env)
    requires Unique(s.db) && (s.ctx.inTransaction ==> s.ctx.currentId == id) && Private(env, conn, id)
    ensures RolledBack(s, Abort(s, conn, id, env).0, conn, id, env.fate)
    ensures Abort(s, conn, id, env).0.db.committed == ExecAll(s.db, env.others).committed
  {
    OthersDoNotDisturb(s.db, env.others, conn, GlobalName(id));
  }

  /** BEGIN opens an empty transaction unless it is refused; the context enters it only when the answer is yes. */
  ghost predicate Begun(s: Side, t: Side, rc: int, conn: nat, id: string, fate: Fate) {
    && (rc == 0 <==> fate == Runs)
    && t.ctx == (if rc == 0 then Ctx(id, true) else s.ctx)
    && s.db.committed <= t.db.committed && Unique(t.db)
    && (Conn(conn) in t.db.pending <==> fate != Refused)
    && (Conn(conn) in t.db.pending ==> t.db.pending[Conn(conn)] == [])
    && (Gid(GlobalName(id)) in t.db.pending <==> Gid(GlobalName(id)) in s.db.pending)
  }

  /** The context is in no transaction and its connection is free. */
  ghost predicate Idle(s: Side, conn: nat) {
    !s.ctx.inTransaction && Unique(s.db) && Conn(conn) !in s.db.pending
  }

  /** The context is in a transaction, open on its connection. */
  ghost predicate Busy(s: Side, conn: nat) {
    s.ctx.inTransaction && Unique(s.db) && Conn(conn) in s.db.pending
  }

  lemma BeginMeans(s: Side, conn: nat, id: string, env: Env)
    requires Idle(s, conn) && Private(env, conn, id)
    ensures var (t, rc) := BeginTxn(s, conn, id, env); Begun(s, t, rc, conn, id, env.fate)
  {
    OthersDoNotDisturb(s.db, env.others, conn, GlobalName(id));
    ExecKeepsUnique(ExecAll(s.db, env.others), Begin(conn));
  }

  /** The request id is already carried, by a committed row or by one of this transaction's own. */
  predicate Repeats(db: Db, conn: nat, row: Row) {
    && row.requestId != "" && Conn(conn) in db.pending
    && (HasKey(db.committed, row.requestId) || HasKey(db.pending[Conn(conn)], row.requestId))
  }

  /**
    What an insert does, `d` being the server when it arrives: it succeeds exactly when it runs, nobody else holds the
    request id and, for a repetition, the look-up runs too.  Then exactly this row is added, or for a repetition none.
   */
  ghost predicate Inserted(s: Side, t: Side, rc: int, isDup: bool, conn: nat, row: Row, d: Db, ins: Fate, sel: Fate)
    requires Conn(conn) in s.db.pending
  {
    && (rc == 0 <==> ins == Runs && Insertable(d, conn, row) && (Repeats(d, conn, row) ==> sel == Runs))
    && (rc == 0 || rc == -1)
    && (isDup <==> rc == 0 && Repeats(d, conn, row))
    && t.ctx == s.ctx && s.db.committed <= t.db.committed && Unique(t.db)
    && Conn(conn) in t.db.pending
    && (rc == 0 ==> t.db.pending[Conn(conn)] == s.db.pending[Conn(conn)] + if isDup then [] else [row])
    && (isDup ==> Repeats(t.db, conn, row))
    && (ins == Refused ==> t.db.pending[Conn(conn)] == s.db.pending[Conn(conn)])
  }

  lemma OneEachTogether(a: seq<Row>, b: seq<Row>)
    requires OneEach(a) && OneEach(b) && Apart(a, b)
    ensures OneEach(a + b)
  {
    var c := a + b;
    forall i, j | 0 <= i < j < |c| && c[i].requestId != "" ensures c[i].requestId != c[j].requestId {
      assert c[i] == if i < |a| then a[i] else b[i - |a|];
      assert c[j] == if j < |a| then a[j] else b[j - |a|];
    }
  }

  lemma KeyInEither(a: seq<Row>, b: seq<Row>, key: string)
    requires HasKey(a, key) || HasKey(b, key)
    ensures HasKey(a + b, key)
  {
    if HasKey(a, key) {
      var i :| 0 <= i < |a| && a[i].requestId == key;
      assert (a + b)[i].requestId == key;
    } else {
      var i :| 0 <= i < |b| && b[i].requestId == key;
      assert (a + b)[|a| + i].requestId == key;
    }
  }

  /** Under the UNIQUE constraint a look-up of a carried request id finds one row. */
  lemma OneIsVisible(db: Db, conn: nat, row: Row)
    requires Unique(db) && Repeats(db, conn, row)
    ensures RowsFor(Visible(db, conn), row.requestId) == 1
  {
    var mine := db.pending[Conn(conn)];
    OneEachTogether(db.committed, mine);
    KeyInEither(db.committed, mine, row.requestId);
    ExactlyOne(db.committed + mine, row.requestId);
  }

  lemma StillRepeats(a: Db, b: Db, conn: nat, gid: string, row: Row)
    requires Undisturbed(a, b, conn, gid) && Repeats(a, conn, row)
    ensures Repeats(b, conn, row)
  {
    if HasKey(a.committed, row.requestId) {
      var i :| 0 <= i < |a.committed| && a.committed[i].requestId == row.requestId;
      assert b.committed[i].requestId == row.requestId;
    }
  }

  lemma InsertMeans(s: Side, conn: nat, row: Row, ins: Env, sel: Env, gid: string)
    requires Busy(s, conn)
    requires AllElsewhere(ins.others, conn, gid) && AllElsewhere(sel.others, conn, gid)
    ensures var (t, rc, isDup) := InsertRow(s, conn, row, ins, sel);
            && Inserted(s, t, rc, isDup, conn, row, ExecAll(s.db, ins.others), ins.fate, sel.fate)
            && (Gid(gid) in t.db.pending <==> Gid(gid) in s.db.pending)
  {
    var d := ExecAll(s.db, ins.others);
    OthersDoNotDisturb(s.db, ins.others, conn, gid);
    ExecKeepsUnique(d, Insert(conn, row));
    var d1 := Exec(d, Insert(conn, row));
    var d2 := ExecAll(d1, sel.others);
    OthersDoNotDisturb(d1, sel.others, conn, gid);
    if Repeats(d, conn, row) {
      StillRepeats(d1, d2, conn, gid, row);
      OneIsVisible(d2, conn, row);
    }
  }

  /** Destroying an open context leaves nothing on the connection unless the rollback is refused. */
  lemma DestroyMeans(s: Side, conn: nat, env: Env)
    requires Unique(s.db) && Private(env, conn, s.ctx.currentId)
    ensures var t := Destroy(s, conn, env);
            && !t.ctx.inTransaction && Unique(t.db)
            && (s.ctx.inTransaction ==>
                  (Conn(conn) in t.db.pending <==> Conn(conn) in s.db.pending && env.fate == Refused))
            && (!s.ctx.inTransaction ==> t == s)
  {
    if s.ctx.inTransaction {
      AbortMeans(s, conn, s.ctx.currentId, env);
    }
  }

  /** While a request id is held by an unfinished transaction no committed row carries it. */
  lemma HeldIsNotCommitted(db: Db, h: Holder, key: string)
    requires Unique(db) && h in db.pending && key != "" && HasKey(db.pending[h], key)
    ensures !HasKey(db.committed, key)
  {
    var i :| 0 <= i < |db.pending[h]| && db.pending[h][i].requestId == key;
    assert Apart(db.committed, db.pending[h]);
  }

  /** A request id held under the global name stays uncommitted through the rollback. */
  lemma RollbackCommitsNothing(s: Side, conn: nat, id: string, key: string, env: Env)
    requires Waiting(s, conn, id) && Private(env, conn, id) && key != ""
    requires HasKey(s.db.pending[Gid(GlobalName(id))], key)
    ensures !HasKey(Abort(s, conn, id, env).0.db.committed, key)
  {
    OthersDoNotDisturb(s.db, env.others, conn, GlobalName(id));
    HeldIsNotCommitted(ExecAll(s.db, env.others), Gid(GlobalName(id)), key);
  }

  /** While a prepared transaction holds a request id, nobody can insert a row with it or find one to return. */
  lemma HeldBlocksInsert(s: Side, conn: nat, row: Row, ins: Env, sel: Env, gid: string)
    requires s.ctx.inTransaction && row.requestId != ""
    requires Gid(gid) in s.db.pending && HasKey(s.db.pending[Gid(gid)], row.requestId)
    requires AllElsewhere(ins.others, conn, gid)
    ensures InsertRow(s, conn, row, ins, sel).1 == -1
  {
    OthersDoNotDisturb(s.db, ins.others, conn, gid);
    assert HeldElsewhere(ExecAll(s.db, ins.others), conn, row.requestId);
  }

  // ---------------------------------------------------------------- the object

  class Server {
    var db: Db

    constructor (db: Db)
      ensures this.db == db
    {
      this.db := db;
    }

    /** PQexec: other sessions first, then the statement with its fate. */
    method Exec(stmt: Stmt, env: Env) returns (ok: bool)
      modifies this
      ensures (db, ok) == Run(old(db), stmt, env)
    {
      var d := ExecAll(db, env.others);
      match env.fate
      case Runs =>
        ok := Succeeds(d, stmt);
        db := Database.Exec(d, stmt);
      case Refused =>
        ok := false;
        db := Refuse(d, stmt);
      case AnswerLost =>
        ok := false;
        db := Database.Exec(d, stmt);
    }

    /** The SELECT by request id: how many rows it returns, if it is answered. */
    method Query(conn: nat, key: string, env: Env) returns (rows: nat, answered: bool)
      modifies this
      ensures db == ExecAll(old(db), env.others)
      ensures answered == (env.fate == Runs) && rows == RowsFor(Visible(db, conn), key)
    {
      db := ExecAll(db, env.others);
      return RowsFor(Visible(db, conn), key), env.fate == Runs;
    }
  }

  class Participant {
    const server: Server
    const conn: nat
    var currentTxnId: string
    var inTransaction: bool

    ghost function View(): Side
      reads this, server
    {
      Side(Ctx(currentTxnId, inTransaction), server.db)
    }

    /** db_participant_init */
    constructor (server: Server, conn: nat)
      ensures this.server == server && this.conn == conn
      ensures View() == Side(Ctx("", false), server.db)
    {
      this.server, this.conn := server, conn;
      currentTxnId, inTransaction := "", false;
    }

    /** db_participant_begin */
    method Begin(id: string, env: Env) returns (rc: int)
      modifies this, server
      ensures (View(), rc) == BeginTxn(old(View()), conn, id, env)
      ensures old(inTransaction) ==> rc == -1 && View() == old(View())
      ensures Idle(old(View()), conn) && Private(env, conn, id) ==>
                Begun(old(View()), View(), rc, conn, id, env.fate)
    {
      if Idle(View(), conn) && Private(env, conn, id) {
        BeginMeans(View(), conn, id, env);
      }
      if inTransaction {
        return -1;
      }
      var ok := server.Exec(Stmt.Begin(conn), env);
      if !ok {
        return -1;
      }
      currentTxnId, inTransaction := id, true;
      return 0;
    }

    /** db_participant_insert_transaction */
    method InsertTransaction(row: Row, ins: Env, sel: Env) returns (rc: int, isDup: bool)
      modifies server
      ensures (View(), rc, isDup) == InsertRow(old(View()), conn, row, ins, sel)
      ensures !inTransaction ==> rc == -1 && !isDup && View() == old(View())
      ensures Busy(old(View()), conn) && Private(ins, conn, currentTxnId) && Private(sel, conn, currentTxnId) ==>
                Inserted(old(View()), View(), rc, isDup, conn, row, ExecAll(old(server.db), ins.others),
                         ins.fate, sel.fate)
    {
      if Busy(View(), conn) && Private(ins, conn, currentTxnId) && Private(sel, conn, currentTxnId) {
        InsertMeans(View(), conn, row, ins, sel, GlobalName(currentTxnId));
      }
      if !inTransaction {
        return -1, false;
      }
      var before := ExecAll(server.db, ins.others);
      var ok := server.Exec(Insert(conn, row), ins);
      if !ok {
        return -1, false;
      }
      if !Conflicts(before, conn, row) {
        return 0, false;
      }
      var rows, answered := server.Query(conn, row.requestId, sel);
      if !answered || rows != 1 {
        return -1, false;
      }
      return 0, true;
    }

    /** db_participant_prepare */
    method PrepareTxn(id: string, env: Env) returns (rc: int)
      modifies this, server
      ensures (View(), rc) == Prepare(old(View()), conn, id, env)
      ensures !old(inTransaction) || old(currentTxnId) != id ==> rc == -1 && View() == old(View())
      ensures Open(old(View()), conn, id) && Private(env, conn, id) ==>
                Prepared(old(View()), View(), rc, conn, id, env.fate)
    {
      if Open(View(), conn, id) && Private(env, conn, id) {
        PrepareMeans(View(), conn, id, env);
      }
      if !inTransaction || currentTxnId != id {
        return -1;
      }
      var ok := server.Exec(PrepareTransaction(conn, GlobalName(id)), env);
      if !ok {
        return -1;
      }
      inTransaction := false;
      return 0;
    }

    /** db_participant_commit */
    method CommitTxn(id: string, env: Env) returns (rc: int)
      modifies this, server
      ensures (View(), rc) == Commit(old(View()), id, env)
      ensures currentTxnId == (if rc == 0 then "" else old(currentTxnId)) && inTransaction == old(inTransaction)
      ensures Waiting(old(View()), conn, id) && Private(env, conn, id) ==>
                CommittedAs(old(View()), View(), rc, conn, id, env.fate)
    {
      if Waiting(View(), conn, id) && Private(env, conn, id) {
        CommitMeans(View(), conn, id, env);
      }
      var ok := server.Exec(CommitPrepared(GlobalName(id)), env);
      if !ok {
        return -1;
      }
      currentTxnId := "";
      return 0;
    }

    /** db_participant_abort: a failed rollback is only logged. */
    method AbortTxn(id: string, env: Env) returns (rc: int)
      modifies this, server
      ensures (View(), rc) == Abort(old(View()), conn, id, env)
      ensures rc == 0 && currentTxnId == ""
      ensures Unique(old(server.db)) && (old(inTransaction) ==> old(currentTxnId) == id) && Private(env, conn, id) ==>
                RolledBack(old(View()), View(), conn, id, env.fate)
    {
      if Unique(server.db) && (inTransaction ==> currentTxnId == id) && Private(env, conn, id) {
        AbortMeans(View(), conn, id, env);
      }
      var ok;
      if inTransaction && currentTxnId == id {
        ok := server.Exec(Rollback(conn), env);
        inTransaction := false;
      } else {
        ok := server.Exec(RollbackPrepared(GlobalName(id)), env);
      }
      currentTxnId := "";
      return 0;
    }

    /** db_participant_destroy */
    method DestroyCtx(env: Env)
      modifies this, server
      ensures View() == Destroy(old(View()), conn, env)
      ensures !old(inTransaction) ==> View() == old(View())
      ensures old(inTransaction) && Unique(old(server.db)) && Private(env, conn, old(currentTxnId)) ==>
                && !inTransaction && Unique(server.db)
                && (Conn(conn) in server.db.pending <==> Conn(conn) in old(server.db).pending && env.fate == Refused)
    {
      if Unique(server.db) && Private(env, conn, currentTxnId) {
        DestroyMeans(View(), conn, env);
      }
      if inTransaction {
        var _ := AbortTxn(currentTxnId, env);
      }
    }
  }
}
