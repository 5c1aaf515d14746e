/**
  An abstract PostgreSQL server as server/db.c and server/db_participant.c use it: rows, transactions open
  on a connection, and prepared transactions held under a global name.  `request_id` is UNIQUE and may be
  absent, which is written "".
 */
module Database {

  datatype Row = Row(requestId: string, pan: string, amount: string, status: string)

  /** Who holds an unfinished transaction: a connection, or a global name after PREPARE TRANSACTION. */
  datatype Holder = Conn(n: nat) | Gid(name: string)

  datatype Db = Db(committed: seq<Row>, pending: map<Holder, seq<Row>>)

  datatype Stmt =
    | Begin(conn: nat)
    | Insert(conn: nat, row: Row)
    | PrepareTransaction(conn: nat, gid: string)
    | CommitPrepared(gid: string)
    | RollbackPrepared(gid: string)
    | Rollback(conn: nat)

  /** What happens to a statement on its way: it runs, it never runs, or it runs and the answer is lost. */
  datatype Fate = Runs | Refused | AnswerLost

  /** A statement's fate, and what other sessions do just before it. */
  datatype Env = Env(others: seq<Stmt>, fate: Fate)

  predicate HasKey(rows: seq<Row>, key: string) {
    exists i :: 0 <= i < |rows| && rows[i].requestId == key
  }

  predicate HeldElsewhere(db: Db, conn: nat, key: string) {
    exists h :: h in db.pending && h != Conn(conn) && HasKey(db.pending[h], key)
  }

  /** INSERT ... ON CONFLICT DO NOTHING waits while another open transaction holds the key, so it needs that gone. */
  predicate Insertable(db: Db, conn: nat, row: Row) {
    Conn(conn) in db.pending && (row.requestId == "" || !HeldElsewhere(db, conn, row.requestId))
  }

  predicate Conflicts(db: Db, conn: nat, row: Row)
    requires Conn(conn) in db.pending
  {
    row.requestId != "" &&
    (HasKey(db.committed, row.requestId) || HasKey(db.pending[Conn(conn)], row.requestId))
  }

  /** The server accepts the statement. */
  predicate Succeeds(db: Db, stmt: Stmt) {
    match stmt
    case Begin(_) => true
    case Insert(conn, row) => Insertable(db, conn, row)
    case PrepareTransaction(conn, gid) => Conn(conn) in db.pending ==> Gid(gid) !in db.pending
    case CommitPrepared(gid) => Gid(gid) in db.pending
    case RollbackPrepared(gid) => Gid(gid) in db.pending
    case Rollback(_) => true
  }

  /** The statement's effect on the server. */
  function Exec(db: Db, stmt: Stmt): Db {
    match stmt
    case Begin(conn) =>
      if Conn(conn) in db.pending then db else db.(pending := db.pending[Conn(conn) := []])
    case Insert(conn, row) =>
      if !Insertable(db, conn, row) || Conflicts(db, conn, row) then db
      else db.(pending := db.pending[Conn(conn) := db.pending[Conn(conn)] + [row]])
    case PrepareTransaction(conn, gid) =>
      if Conn(conn) !in db.pending then db                 // "no transaction in progress"
      else if Gid(gid) in db.pending then db.(pending := db.pending - {Conn(conn)})
      else db.(pending := (db.pending - {Conn(conn)})[Gid(gid) := db.pending[Conn(conn)]])
    case CommitPrepared(gid) =>
      if Gid(gid) !in db.pending then db
      else Db(db.committed + db.pending[Gid(gid)], db.pending - {Gid(gid)})
    case RollbackPrepared(gid) => db.(pending := db.pending - {Gid(gid)})
    case Rollback(conn) => db.(pending := db.pending - {Conn(conn)})
  }

  function ExecAll(db: Db, stmts: seq<Stmt>): Db {
    if stmts == [] then db else Exec(ExecAll(db, stmts[..|stmts| - 1]), stmts[|stmts| - 1])
  }

  /** A refused PREPARE TRANSACTION still ends the open transaction: the server rolls it back. */
  function Refuse(db: Db, stmt: Stmt): Db {
    if stmt.PrepareTransaction? then db.(pending := db.pending - {Conn(stmt.conn)}) else db
  }

  /** The server after the statement and what came before it, and whether the client saw success. */
  function Run(db: Db, stmt: Stmt, env: Env): (Db, bool) {
    var d := ExecAll(db, env.others);
    match env.fate
    case Runs => (Exec(d, stmt), Succeeds(d, stmt))
    case Refused => (Refuse(d, stmt), false)
    case AnswerLost => (Exec(d, stmt), false)
  }

  // ---------------------------------------------------------------- the UNIQUE constraint

  predicate OneEach(rows: seq<Row>) {
    forall i, j :: 0 <= i < j < |rows| && rows[i].requestId != "" ==> rows[i].requestId != rows[j].requestId
  }

  predicate Apart(a: seq<Row>, b: seq<Row>) {
    forall i, j :: 0 <= i < |a| && 0 <= j < |b| && a[i].requestId != "" ==> a[i].requestId != b[j].requestId
  }

  /** No request id is carried twice, by committed or unfinished rows. */
  ghost predicate Unique(db: Db) {
    && OneEach(db.committed)
    && (forall h :: h in db.pending ==> OneEach(db.pending[h]) && Apart(db.committed, db.pending[h]))
    && (forall h, k :: h in db.pending && k in db.pending && h != k ==> Apart(db.pending[h], db.pending[k]))
  }

  lemma InsertKeepsUnique(db: Db, conn: nat, row: Row)
    requires Unique(db)
    ensures Unique(Exec(db, Insert(conn, row)))
  {
    var d := Exec(db, Insert(conn, row));
    if d != db {
      var mine := db.pending[Conn(conn)];
      assert d.pending[Conn(conn)] == mine + [row];
      if row.requestId != "" {
        assert forall i :: 0 <= i < |mine| ==> mine[i].requestId != row.requestId;
        assert forall i :: 0 <= i < |db.committed| ==> db.committed[i].requestId != row.requestId;
        forall h, i | h in db.pending && h != Conn(conn) && 0 <= i < |db.pending[h]|
          ensures db.pending[h][i].requestId != row.requestId
        {
          assert !HasKey(db.pending[h], row.requestId);
        }
      }
    }
  }

  lemma CommitKeepsUnique(db: Db, gid: string)
    requires Unique(db)
    ensures Unique(Exec(db, CommitPrepared(gid)))
  {
    if Gid(gid) in db.pending {
      var rows := db.pending[Gid(gid)];
      assert Apart(db.committed, rows);
    }
  }

  lemma ExecKeepsUnique(db: Db, stmt: Stmt)
    requires Unique(db)
    ensures Unique(Exec(db, stmt))
  {
    match stmt
    case Insert(conn, row) => InsertKeepsUnique(db, conn, row);
    case CommitPrepared(gid) => CommitKeepsUnique(db, gid);
    case _ =>
  }

  // ---------------------------------------------------------------- what other sessions cannot do

  /** The statement concerns neither this connection nor this global name. */
  predicate Elsewhere(stmt: Stmt, conn: nat, gid: string) {
    match stmt
    case Begin(c) => c != conn
    case Insert(c, _) => c != conn
    case PrepareTransaction(c, g) => c != conn && g != gid
    case CommitPrepared(g) => g != gid
    case RollbackPrepared(g) => g != gid
    case Rollback(c) => c != conn
  }

  ghost predicate AllElsewhere(stmts: seq<Stmt>, conn: nat, gid: string) {
    forall s :: s in stmts ==> Elsewhere(s, conn, gid)
  }

  /** Same transaction under the connection and under the global name; committed rows only added. */
  ghost predicate Undisturbed(a: Db, b: Db, conn: nat, gid: string) {
    && a.committed <= b.committed
    && (forall h :: h == Conn(conn) || h == Gid(gid) ==>
          (h in a.pending <==> h in b.pending) && (h in a.pending ==> a.pending[h] == b.pending[h]))
  }

  lemma {:induction false} OthersDoNotDisturb(db: Db, stmts: seq<Stmt>, conn: nat, gid: string)
    requires AllElsewhere(stmts, conn, gid)
    ensures Undisturbed(db, ExecAll(db, stmts), conn, gid)
    ensures Unique(db) ==> Unique(ExecAll(db, stmts))
  {
    if stmts != [] {
      var before := stmts[..|stmts| - 1];
      OthersDoNotDisturb(db, before, conn, gid);
      assert stmts[|stmts| - 1] in stmts;
      if Unique(db) {
        ExecKeepsUnique(ExecAll(db, before), stmts[|stmts| - 1]);
      }
    }
  }

  // ---------------------------------------------------------------- rows per request

  function RowsFor(rows: seq<Row>, key: string): nat {
    if rows == [] then 0 else RowsFor(rows[..|rows| - 1], key) + if rows[|rows| - 1].requestId == key then 1 else 0
  }

  lemma {:induction false} ExactlyOne(rows: seq<Row>, key: string)
    requires key != "" && OneEach(rows)
    ensures RowsFor(rows, key) == if HasKey(rows, key) then 1 else 0
  {
    if rows != [] {
      var init := rows[..|rows| - 1];
      ExactlyOne(init, key);
      assert HasKey(rows, key) <==> HasKey(init, key) || rows[|rows| - 1].requestId == key by {
        assert forall i :: 0 <= i < |init| ==> init[i] == rows[i];
        if rows[|rows| - 1].requestId == key {
          assert rows[|rows| - 1].requestId == key;
        }
      }
    }
  }
}
