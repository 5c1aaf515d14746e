/**
  The clearing service's transaction table (microservices/clearing-service/src/main.c): prepare, commit and abort
  handlers over an append-only array of at most 10000 records, and their counters.

  The stored id keeps at most 127 characters, while look-ups compare the whole id.
 */
module ClearingService {

  const MAX_TRANSACTIONS := 10000
  const STORED := 127

  datatype TxnState = Unknown | Prepared | Committed | Aborted

  datatype Details = Details(pan: string, amount: string, currency: string, merchant: string)

  datatype Record = Record(id: string, state: TxnState, details: Details)

  datatype Kind = Prepare | Commit | Abort

  /** One delivery; `fails` is the simulated network failure, which aborts never meet. */
  datatype Message = Message(kind: Kind, id: string, details: Details, fails: bool)

  datatype Reply = Ok(status: string) | Error(reason: string)

  datatype Counters = Counters(
    totalPrepares: nat, successfulPrepares: nat, failedPrepares: nat,
    totalCommits: nat, successfulCommits: nat, failedCommits: nat, totalAborts: nat)

  datatype State = State(table: seq<Record>, counters: Counters)

  const START := State([], Counters(0, 0, 0, 0, 0, 0, 0))

  function StoredId(id: string): string {
    Cut(id, STORED)
  }

  function Cut(s: string, n: nat): (r: string)
    ensures r <= s && |r| <= n && (|s| <= n ==> r == s) && (|s| > n ==> |r| == n)
  {
    if |s| <= n then s else s[..n]
  }

  /** What the record's fields keep of the details. */
  function Kept(d: Details): Details {
    Details(Cut(d.pan, 19), Cut(d.amount, 15), Cut(d.currency, 3), Cut(d.merchant, 63))
  }

  function Find(table: seq<Record>, id: string): (i: nat)
    ensures i <= |table|
    ensures forall j :: 0 <= j < i ==> table[j].id != id
    ensures i < |table| ==> table[i].id == id
  {
    if table == [] || table[0].id == id then 0 else 1 + Find(table[1..], id)
  }

  /** What a look-up by id finds. */
  datatype Found = Missing | Found(state: TxnState)

  function Lookup(table: seq<Record>, id: string): Found {
    var i := Find(table, id);
    if i < |table| then Found(table[i].state) else Missing
  }

  // ---------------------------------------------------------------- the handlers on values

  function OnPrepare(s: State, m: Message): (State, Reply) {
    var c := s.counters.(totalPrepares := s.counters.totalPrepares + 1);
    var i := Find(s.table, m.id);
    if m.fails then (State(s.table, c.(failedPrepares := c.failedPrepares + 1)), Error("network_timeout"))
    else if i < |s.table| then
      (State(s.table, c),
       if s.table[i].state == Prepared then Ok("already_prepared") else Error("transaction_in_invalid_state"))
    else if |s.table| >= MAX_TRANSACTIONS then (State(s.table, c), Error("transaction_table_full"))
    else
      (State(s.table + [Record(StoredId(m.id), Prepared, Kept(m.details))],
             c.(successfulPrepares := c.successfulPrepares + 1)), Ok("prepared"))
  }

  function OnCommit(s: State, m: Message): (State, Reply) {
    var c := s.counters.(totalCommits := s.counters.totalCommits + 1);
    var i := Find(s.table, m.id);
    if m.fails then (State(s.table, c.(failedCommits := c.failedCommits + 1)), Error("commit_failed"))
    else if i == |s.table| then (State(s.table, c), Error("transaction_not_found"))
    else if s.table[i].state == Committed then (State(s.table, c), Ok("already_committed"))
    else if s.table[i].state != Prepared then (State(s.table, c), Error("transaction_not_prepared"))
    else
      (State(s.table[i := s.table[i].(state := Committed)], c.(successfulCommits := c.successfulCommits + 1)),
       Ok("committed"))
  }

  function OnAbort(s: State, m: Message): (State, Reply) {
    var c := s.counters.(totalAborts := s.counters.totalAborts + 1);
    var i := Find(s.table, m.id);
    if i == |s.table| then (State(s.table, c), Ok("not_found_ok"))
    else (State(s.table[i := s.table[i].(state := Aborted)], c), Ok("aborted"))
  }

  function Handle(s: State, m: Message): (State, Reply) {
    match m.kind
    case Prepare => OnPrepare(s, m)
    case Commit => OnCommit(s, m)
    case Abort => OnAbort(s, m)
  }

  function After(h: seq<Message>): State {
    if h == [] then START else Handle(After(h[..|h| - 1]), h[|h| - 1]).0
  }

  // ---------------------------------------------------------------- the service object

  class Service {
    const records: array<Record>
    var count: nat
    var counters: Counters

    ghost predicate Valid()
      reads this
    {
      count <= records.Length == MAX_TRANSACTIONS
    }

    ghost function View(): State
      requires Valid()
      reads this, records
    {
      State(records[..count], counters)
    }

    constructor ()
      ensures Valid() && View() == START && fresh(records)
    {
      records := new Record[MAX_TRANSACTIONS](_ => Record("", Unknown, Details("", "", "", "")));
      count := 0;
      counters := START.counters;
    }

    /** find_transaction */
    method FindTransaction(id: string) returns (i: nat)
      requires Valid()
      ensures i == Find(View().table, id)
    {
      i := 0;
      ghost var t := View().table;
      while i < count
        invariant 0 <= i <= count && forall j :: 0 <= j < i ==> t[j].id != id
      {
        if records[i].id == id {
          return;
        }
        i := i + 1;
      }
    }

    /** add_transaction: the index of the new record, or none when the table is full. */
    method AddTransaction(id: string) returns (ok: bool, i: nat)
      requires Valid()
      modifies this`count, records
      ensures Valid()
      ensures ok <==> old(count) < MAX_TRANSACTIONS
      ensures !ok ==> records[..count] == old(records[..count])
      ensures ok ==> i == old(count) < count && count == i + 1
      ensures ok ==> records[i].id == StoredId(id) && records[..i] == old(records[..count])
    {
      if count >= MAX_TRANSACTIONS {
        return false, 0;
      }
      i := count;
      count := count + 1;
      records[i] := Record(StoredId(id), Unknown, records[i].details);
      return true, i;
    }

    /** handle_prepare */
    method HandlePrepare(m: Message) returns (reply: Reply)
      requires Valid()
      modifies this, records
      ensures Valid() && (View(), reply) == OnPrepare(old(View()), m)
      ensures var before := Lookup(old(View()).table, m.id);
              reply == if m.fails then Error("network_timeout")
                       else if before == Found(Prepared) then Ok("already_prepared")
                       else if before.Found? then Error("transaction_in_invalid_state")
                       else if old(count) == MAX_TRANSACTIONS then Error("transaction_table_full")
                       else Ok("prepared")
      ensures reply != Ok("prepared") ==> View().table == old(View()).table
      ensures reply == Ok("prepared") ==> count == old(count) + 1 && records[..old(count)] == old(View()).table
      ensures reply == Ok("prepared") ==>
                var r := records[old(count)];
                && r.id == Cut(m.id, STORED) && r.state == Prepared
                && r.details.pan == Cut(m.details.pan, 19) && r.details.amount == Cut(m.details.amount, 15)
                && r.details.currency == Cut(m.details.currency, 3) && r.details.merchant == Cut(m.details.merchant, 63)
    {
      counters := counters.(totalPrepares := counters.totalPrepares + 1);
      if m.fails {
        counters := counters.(failedPrepares := counters.failedPrepares + 1);
        return Error("network_timeout");
      }
      var i := FindTransaction(m.id);
      if i < count {
        if records[i].state == Prepared {
          return Ok("already_prepared");
        }
        return Error("transaction_in_invalid_state");
      }
      var ok, k := AddTransaction(m.id);
      if !ok {
        return Error("transaction_table_full");
      }
      records[k] := Record(records[k].id, Prepared, Kept(m.details));
      assert records[..count] == records[..k] + [records[k]];
      counters := counters.(successfulPrepares := counters.successfulPrepares + 1);
      return Ok("prepared");
    }

    /** handle_commit */
    method HandleCommit(m: Message) returns (reply: Reply)
      requires Valid()
      modifies this, records
      ensures Valid() && (View(), reply) == OnCommit(old(View()), m)
      ensures var before := Lookup(old(View()).table, m.id);
              reply == if m.fails then Error("commit_failed")
                       else if before == Missing then Error("transaction_not_found")
                       else if before == Found(Committed) then Ok("already_committed")
                       else if before == Found(Prepared) then Ok("committed")
                       else Error("transaction_not_prepared")
      ensures reply != Ok("committed") ==> View().table == old(View()).table
      ensures reply == Ok("committed") ==> OnlyStateChanged(old(View()).table, View().table, m.id, Committed)
    {
      counters := counters.(totalCommits := counters.totalCommits + 1);
      if m.fails {
        counters := counters.(failedCommits := counters.failedCommits + 1);
        return Error("commit_failed");
      }
      var i := FindTransaction(m.id);
      if i == count {
        return Error("transaction_not_found");
      }
      if records[i].state == Committed {
        return Ok("already_committed");
      }
      if records[i].state != Prepared {
        return Error("transaction_not_prepared");
      }
      records[i] := records[i].(state := Committed);
      counters := counters.(successfulCommits := counters.successfulCommits + 1);
      return Ok("committed");
    }

    /** handle_abort */
    method HandleAbort(m: Message) returns (reply: Reply)
      requires Valid()
      modifies this, records
      ensures Valid() && (View(), reply) == OnAbort(old(View()), m)
      ensures reply == Ok(if Lookup(old(View()).table, m.id) == Missing then "not_found_ok" else "aborted")
      ensures reply == Ok("not_found_ok") ==> View().table == old(View()).table
      ensures reply == Ok("aborted") ==> OnlyStateChanged(old(View()).table, View().table, m.id, Aborted)
    {
      counters := counters.(totalAborts := counters.totalAborts + 1);
      var i := FindTransaction(m.id);
      if i == count {
        return Ok("not_found_ok");
      }
      records[i] := records[i].(state := Aborted);
      return Ok("aborted");
    }
  }

  /** The record of this id has the new state, and nothing else has changed. */
  ghost predicate OnlyStateChanged(a: seq<Record>, b: seq<Record>, id: string, state: TxnState) {
    var i := Find(a, id);
    && |a| == |b| && i < |a|
    && b[i].id == id && b[i].state == state && b[i].details == a[i].details
    && forall j :: 0 <= j < |a| && j != i ==> b[j] == a[j]
  }

  // ---------------------------------------------------------------- the state of a record, from the messages alone

  predicate GoodPrepare(m: Message, id: string) {
    m.kind == Prepare && m.id == id && !m.fails
  }

  predicate GoodCommit(m: Message, id: string) {
    m.kind == Commit && m.id == id && !m.fails
  }

  predicate IsAbort(m: Message, id: string) {
    m.kind == Abort && m.id == id
  }

  /** The p-th message is the prepare that stored the record of this id. */
  ghost predicate StoredAt(h: seq<Message>, p: int, id: string) {
    && 0 <= p < |h| && GoodPrepare(h[p], id)
    && Lookup(After(h[..p]).table, id) == Missing && |After(h[..p]).table| < MAX_TRANSACTIONS
  }

  ghost predicate CommitAfter(h: seq<Message>, p: int, id: string) {
    exists k :: p < k < |h| && 0 <= k && GoodCommit(h[k], id)
  }

  ghost predicate AbortAfter(h: seq<Message>, p: int, id: string) {
    exists k :: p < k < |h| && 0 <= k && IsAbort(h[k], id)
  }

  /** What the messages since its prepare make of a record. */
  ghost function Expected(h: seq<Message>, p: int, id: string): TxnState {
    if AbortAfter(h, p, id) then Aborted else if CommitAfter(h, p, id) then Committed else Prepared
  }

  lemma FindAfterAppend(t: seq<Record>, r: Record, id: string)
    ensures Lookup(t + [r], id)
            == if Lookup(t, id) != Missing then Lookup(t, id) else if r.id == id then Found(r.state) else Missing
  {
    var i, j := Find(t, id), Find(t + [r], id);
    if i < |t| {
      assert (t + [r])[i].id == id;
    } else {
      assert (t + [r])[|t|] == r;
    }
  }

  lemma FindAfterUpdate(t: seq<Record>, i: nat, state: TxnState, id: string)
    requires i < |t| && i == Find(t, t[i].id)
    ensures Lookup(t[i := t[i].(state := state)], id) == if id == t[i].id then Found(state) else Lookup(t, id)
  {
    var u := t[i := t[i].(state := state)];
    var j, k := Find(t, id), Find(u, id);
    assert forall x :: 0 <= x < |t| ==> u[x].id == t[x].id;
    if j < |t| {
      assert u[j].id == id;
    }
  }

  /** What one message does to what a look-up finds. */
  lemma LookupStep(s: State, m: Message, id: string)
    requires |m.id| <= STORED
    ensures var before, after := Lookup(s.table, id), Lookup(Handle(s, m).0.table, id);
            after == if IsAbort(m, id) && before != Missing then Found(Aborted)
                     else if GoodCommit(m, id) && before == Found(Prepared) then Found(Committed)
                     else if GoodPrepare(m, id) && before == Missing && |s.table| < MAX_TRANSACTIONS
                     then Found(Prepared)
                     else before
  {
    var i := Find(s.table, m.id);
    match m.kind
    case Prepare => FindAfterAppend(s.table, Record(StoredId(m.id), Prepared, Kept(m.details)), id);
    case Commit =>
      if i < |s.table| {
        FindAfterUpdate(s.table, i, Committed, id);
      }
    case Abort =>
      if i < |s.table| {
        FindAfterUpdate(s.table, i, Aborted, id);
      }
  }

  /** The messages of a longer run, seen from the shorter one. */
  lemma OneMore(before: seq<Message>, m: Message, p: int, id: string)
    requires 0 <= p < |before|
    ensures var h := before + [m];
            && (StoredAt(h, p, id) <==> StoredAt(before, p, id))
            && (CommitAfter(h, p, id) <==> CommitAfter(before, p, id) || GoodCommit(m, id))
            && (AbortAfter(h, p, id) <==> AbortAfter(before, p, id) || IsAbort(m, id))
  {
    var h := before + [m];
    assert h[..p] == before[..p] && h[p] == before[p];
    assert forall k :: 0 <= k < |before| ==> h[k] == before[k];
    assert h[|before|] == m;
  }

  lemma JustStored(before: seq<Message>, m: Message, id: string)
    ensures var h := before + [m];
            && (StoredAt(h, |before|, id) <==>
                  && GoodPrepare(m, id) && Lookup(After(before).table, id) == Missing
                  && |After(before).table| < MAX_TRANSACTIONS)
            && !CommitAfter(h, |before|, id) && !AbortAfter(h, |before|, id)
  {
    var h := before + [m];
    assert h[..|before|] == before && h[|before|] == m;
  }

  /**
    The whole fate of a record, from the messages alone: it is there exactly when some prepare stored it, and then it is
    ABORTED if an abort of it followed, else COMMITTED if a commit did that met no failure, else PREPARED.
   */
  lemma {:induction false} FateOfRecord(h: seq<Message>, id: string)
    requires forall m :: m in h ==> |m.id| <= STORED
    ensures Lookup(After(h).table, id) == Missing <==> forall p :: !StoredAt(h, p, id)
    ensures forall p :: StoredAt(h, p, id) ==> Lookup(After(h).table, id) == Found(Expected(h, p, id))
  {
    if h != [] {
      var before, m := h[..|h| - 1], h[|h| - 1];
      assert h == before + [m] && m in h && forall x :: x in before ==> x in h;
      FateOfRecord(before, id);
      LookupStep(After(before), m, id);
      JustStored(before, m, id);
      forall p | StoredAt(h, p, id)
        ensures Lookup(After(h).table, id) == Found(Expected(h, p, id))
      {
        if p < |before| {
          OneMore(before, m, p, id);
        }
      }
      if Lookup(After(h).table, id) != Missing {
        if Lookup(After(before).table, id) == Missing {
          assert StoredAt(h, |before|, id);
        } else {
          var p :| StoredAt(before, p, id);
          OneMore(before, m, p, id);
          assert StoredAt(h, p, id);
        }
      }
    }
  }

  /** COMMITTED means: stored by a prepare, a commit that met no failure after it, and no abort after it. */
  lemma CommittedIff(h: seq<Message>, id: string)
    requires forall m :: m in h ==> |m.id| <= STORED
    ensures Lookup(After(h).table, id) == Found(Committed)
            <==> exists p :: StoredAt(h, p, id) && CommitAfter(h, p, id) && !AbortAfter(h, p, id)
  {
    FateOfRecord(h, id);
  }

  // ---------------------------------------------------------------- duplicates change nothing

  /** What duplicates must not change: the records and the success counters. */
  datatype Core = Core(table: seq<Record>, prepares: nat, commits: nat)

  function CoreOf(s: State): Core {
    Core(s.table, s.counters.successfulPrepares, s.counters.successfulCommits)
  }

  /** The message reached the table and its transaction is there afterwards. */
  predicate Applied(s: State, m: Message) {
    (m.fails ==> m.kind == Abort) && Find(Handle(s, m).0.table, m.id) < |Handle(s, m).0.table|
  }

  /** The effect of such a message is in place. */
  predicate Done(table: seq<Record>, kind: Kind, id: string) {
    var i := Find(table, id);
    i < |table| &&
    match kind
    case Prepare => true
    case Commit => table[i].state == Committed || table[i].state == Aborted
    case Abort => table[i].state == Aborted
  }

  function Rank(s: TxnState): nat {
    match s
    case Unknown => 0
    case Prepared => 1
    case Committed => 2
    case Aborted => 3
  }

  /** Records keep their place and id, and their state only moves up. */
  ghost predicate Grows(a: seq<Record>, b: seq<Record>) {
    && |a| <= |b|
    && forall i :: 0 <= i < |a| ==> a[i].id == b[i].id && Rank(a[i].state) <= Rank(b[i].state)
                                    && a[i].details == b[i].details
  }

  /** No record is ever left in the Unknown state. */
  predicate AllKnown(t: seq<Record>) {
    forall i :: 0 <= i < |t| ==> t[i].state != Unknown
  }

  lemma UpdateGrows(t: seq<Record>, i: nat, state: TxnState)
    requires i < |t| && AllKnown(t) && Rank(t[i].state) <= Rank(state)
    ensures Grows(t, t[i := t[i].(state := state)]) && AllKnown(t[i := t[i].(state := state)])
  {
  }

  lemma HandleGrows(s: State, m: Message)
    requires AllKnown(s.table)
    ensures Grows(s.table, Handle(s, m).0.table) && AllKnown(Handle(s, m).0.table)
  {
    var i := Find(s.table, m.id);
    if m.kind != Prepare && i < |s.table| {
      if m.kind == Abort {
        UpdateGrows(s.table, i, Aborted);
      } else if s.table[i].state == Prepared {
        UpdateGrows(s.table, i, Committed);
      }
    }
  }

  lemma FindStays(a: seq<Record>, b: seq<Record>, id: string)
    requires Grows(a, b) && Find(a, id) < |a|
    ensures Find(b, id) == Find(a, id)
  {
    assert b[Find(a, id)].id == id;
    assert forall k :: 0 <= k < |a| ==> a[k].id == b[k].id;
  }

  lemma DoneStays(a: seq<Record>, b: seq<Record>, kind: Kind, id: string)
    requires Grows(a, b) && AllKnown(b) && Done(a, kind, id)
    ensures Done(b, kind, id)
  {
    FindStays(a, b, id);
  }

  lemma AppliedIsDone(s: State, m: Message)
    requires AllKnown(s.table) && Applied(s, m)
    ensures Done(Handle(s, m).0.table, m.kind, m.id)
  {
    HandleGrows(s, m);
    if Find(s.table, m.id) < |s.table| {
      FindStays(s.table, Handle(s, m).0.table, m.id);
    }
  }

  lemma DoneIsIdempotent(s: State, m: Message)
    requires Done(s.table, m.kind, m.id)
    ensures CoreOf(Handle(s, m).0) == CoreOf(s)
  {
    var i := Find(s.table, m.id);
    assert s.table[i := s.table[i]] == s.table;
  }

  lemma CoreDecides(s: State, t: State, m: Message)
    requires CoreOf(s) == CoreOf(t)
    ensures CoreOf(Handle(s, m).0) == CoreOf(Handle(t, m).0)
  {
  }

  lemma {:induction false} AlwaysKnown(h: seq<Message>)
    ensures AllKnown(After(h).table)
  {
    if h != [] {
      AlwaysKnown(h[..|h| - 1]);
      HandleGrows(After(h[..|h| - 1]), h[|h| - 1]);
    }
  }

  /** An earlier delivery of the same message has been applied. */
  predicate Redelivered(before: seq<Message>, m: Message) {
    exists j :: 0 <= j < |before| && before[j].kind == m.kind && before[j].id == m.id
                && Applied(After(before[..j]), before[j])
  }

  lemma {:induction false} RedeliveredIsDone(before: seq<Message>, m: Message, j: nat)
    requires j < |before| && before[j].kind == m.kind && before[j].id == m.id
    requires Applied(After(before[..j]), before[j])
    ensures Done(After(before).table, m.kind, m.id)
    decreases |before|
  {
    var prior := before[..|before| - 1];
    AlwaysKnown(prior);
    AlwaysKnown(before);
    if j == |before| - 1 {
      AppliedIsDone(After(prior), before[j]);
    } else {
      assert prior[..j] == before[..j];
      RedeliveredIsDone(prior, m, j);
      HandleGrows(After(prior), before[|before| - 1]);
      DoneStays(After(prior).table, After(before).table, m.kind, m.id);
    }
  }

  /** The run with every redelivery of an applied message left out. */
  function ExactlyOnce(h: seq<Message>): seq<Message> {
    if h == [] then []
    else
      var before := h[..|h| - 1];
      ExactlyOnce(before) + if Redelivered(before, h[|h| - 1]) then [] else [h[|h| - 1]]
  }

  /**
    At-least-once delivery is exactly-once delivery: at every point of every run the records and success counters
    agree.
   */
  lemma {:induction false} DuplicatesChangeNothing(h: seq<Message>)
    ensures CoreOf(After(h)) == CoreOf(After(ExactlyOnce(h)))
  {
    if h != [] {
      var before, m := h[..|h| - 1], h[|h| - 1];
      DuplicatesChangeNothing(before);
      var once := ExactlyOnce(before);
      if Redelivered(before, m) {
        var j :| 0 <= j < |before| && before[j].kind == m.kind && before[j].id == m.id
                 && Applied(After(before[..j]), before[j]);
        RedeliveredIsDone(before, m, j);
        DoneIsIdempotent(After(before), m);
        assert once + [] == once;
      } else {
        assert (once + [m])[..|once|] == once;
        CoreDecides(After(before), After(once), m);
      }
    }
  }

  // ---------------------------------------------------------------- what every run keeps

  lemma GrowsTrans(a: seq<Record>, b: seq<Record>, c: seq<Record>)
    requires Grows(a, b) && Grows(b, c)
    ensures Grows(a, c)
  {
  }

  /** States only move up PREPARED < COMMITTED < ABORTED, so nothing aborted ever commits; records never move or go. */
  lemma {:induction false} OnlyForward(h: seq<Message>, k: nat)
    requires k <= |h|
    ensures Grows(After(h[..k]).table, After(h).table)
  {
    if k == |h| {
      assert h[..k] == h;
    } else {
      var before := h[..|h| - 1];
      OnlyForward(before, k);
      assert before[..k] == h[..k];
      AlwaysKnown(before);
      HandleGrows(After(before), h[|h| - 1]);
      GrowsTrans(After(h[..k]).table, After(before).table, After(h).table);
    }
  }

  function PreparedCount(t: seq<Record>): nat {
    if t == [] then 0 else PreparedCount(t[1..]) + if t[0].state == Prepared then 1 else 0
  }

  lemma {:induction false} PreparedCountUpdate(t: seq<Record>, i: nat, r: Record)
    requires i < |t|
    ensures PreparedCount(t[i := r]) + (if t[i].state == Prepared then 1 else 0)
            == PreparedCount(t) + if r.state == Prepared then 1 else 0
  {
    if i == 0 {
      assert t[i := r][1..] == t[1..];
    } else {
      assert t[i := r][1..] == t[1..][i - 1 := r];
      PreparedCountUpdate(t[1..], i - 1, r);
    }
  }

  lemma {:induction false} PreparedCountAppend(t: seq<Record>, r: Record)
    ensures PreparedCount(t + [r]) == PreparedCount(t) + if r.state == Prepared then 1 else 0
  {
    if t == [] {
      assert t + [r] == [r] && [r][1..] == [];
    } else {
      assert (t + [r])[1..] == t[1..] + [r];
      PreparedCountAppend(t[1..], r);
    }
  }

  predicate Accounted(s: State) {
    && |s.table| <= MAX_TRANSACTIONS
    && s.counters.successfulPrepares == |s.table|
    && s.counters.successfulCommits + PreparedCount(s.table) <= |s.table|
    && s.counters.successfulPrepares + s.counters.failedPrepares <= s.counters.totalPrepares
    && s.counters.successfulCommits + s.counters.failedCommits <= s.counters.totalCommits
  }

  lemma AccountedStep(s: State, m: Message)
    requires Accounted(s)
    ensures Accounted(Handle(s, m).0)
  {
    match m.kind
    case Prepare => AccountedPrepare(s, m);
    case Commit => AccountedCommit(s, m);
    case Abort => AccountedAbort(s, m);
  }

  lemma AccountedPrepare(s: State, m: Message)
    requires Accounted(s)
    ensures Accounted(OnPrepare(s, m).0)
  {
    PreparedCountAppend(s.table, Record(StoredId(m.id), Prepared, Kept(m.details)));
  }

  lemma AccountedCommit(s: State, m: Message)
    requires Accounted(s)
    ensures Accounted(OnCommit(s, m).0)
  {
    var i := Find(s.table, m.id);
    if i < |s.table| {
      PreparedCountUpdate(s.table, i, s.table[i].(state := Committed));
    }
  }

  lemma AccountedAbort(s: State, m: Message)
    requires Accounted(s)
    ensures Accounted(OnAbort(s, m).0)
  {
    var i := Find(s.table, m.id);
    if i < |s.table| {
      PreparedCountUpdate(s.table, i, s.table[i].(state := Aborted));
    }
  }

  /** In every run successful commits are at most successful prepares, which are the records. */
  lemma {:induction false} CountersAddUp(h: seq<Message>)
    ensures Accounted(After(h))
    ensures var s := After(h); s.counters.successfulCommits <= s.counters.successfulPrepares == |s.table|
  {
    if h != [] {
      CountersAddUp(h[..|h| - 1]);
      AccountedStep(After(h[..|h| - 1]), h[|h| - 1]);
    }
  }

  /** How many messages of a kind there are, and how many of them met a failure. */
  function Count(h: seq<Message>, kind: Kind): nat {
    if h == [] then 0 else Count(h[..|h| - 1], kind) + if h[|h| - 1].kind == kind then 1 else 0
  }

  function CountFailed(h: seq<Message>, kind: Kind): nat {
    if h == [] then 0
    else CountFailed(h[..|h| - 1], kind) + if h[|h| - 1].kind == kind && h[|h| - 1].fails then 1 else 0
  }

  /** How many commits found their record PREPARED. */
  function CountCommitted(h: seq<Message>): nat {
    if h == [] then 0
    else
      var before, m := h[..|h| - 1], h[|h| - 1];
      CountCommitted(before) + if Commits(After(before), m) then 1 else 0
  }

  /** The message is a commit that meets no failure and finds its record PREPARED. */
  predicate Commits(s: State, m: Message) {
    GoodCommit(m, m.id) && Lookup(s.table, m.id) == Found(Prepared)
  }

  function One(b: bool): nat {
    if b then 1 else 0
  }

  lemma CountersStep(s: State, m: Message)
    requires s.counters.successfulPrepares == |s.table|
    ensures var c, d := s.counters, Handle(s, m).0.counters;
            && d.totalPrepares == c.totalPrepares + One(m.kind == Prepare)
            && d.totalCommits == c.totalCommits + One(m.kind == Commit)
            && d.totalAborts == c.totalAborts + One(m.kind == Abort)
            && d.failedPrepares == c.failedPrepares + One(m.kind == Prepare && m.fails)
            && d.failedCommits == c.failedCommits + One(m.kind == Commit && m.fails)
            && d.successfulPrepares == |Handle(s, m).0.table|
            && d.successfulCommits == c.successfulCommits + One(Commits(s, m))
  {
  }

  /** What each counter counts. */
  lemma {:induction false} CountersCount(h: seq<Message>)
    ensures var c := After(h).counters;
            && c.totalPrepares == Count(h, Prepare) && c.totalCommits == Count(h, Commit)
            && c.totalAborts == Count(h, Abort)
            && c.failedPrepares == CountFailed(h, Prepare) && c.failedCommits == CountFailed(h, Commit)
            && c.successfulPrepares == |After(h).table| && c.successfulCommits == CountCommitted(h)
  {
    if h != [] {
      CountersCount(h[..|h| - 1]);
      CountersStep(After(h[..|h| - 1]), h[|h| - 1]);
    }
  }

  predicate UniqueIds(t: seq<Record>) {
    forall i, j :: 0 <= i < j < |t| ==> t[i].id != t[j].id
  }

  /** Ids that fit the record are stored once each ... */
  lemma {:induction false} IdsAreUnique(h: seq<Message>)
    requires forall m :: m in h ==> |m.id| <= STORED
    ensures UniqueIds(After(h).table)
  {
    if h != [] {
      assert h[|h| - 1] in h && forall m :: m in h[..|h| - 1] ==> m in h;
      IdsAreUnique(h[..|h| - 1]);
      HandleKeepsUnique(After(h[..|h| - 1]), h[|h| - 1]);
    }
  }

  lemma PreparedTwice(s: State, m: Message)
    requires m.kind == Prepare && !m.fails && |m.id| > STORED && |s.table| + 2 <= MAX_TRANSACTIONS
    requires forall i :: 0 <= i < |s.table| ==> |s.table[i].id| <= STORED
    ensures var t := Handle(Handle(s, m).0, m).0.table;
            |t| == |s.table| + 2 && t[|t| - 2].id == t[|t| - 1].id
  {
    var a := Handle(s, m).0.table;
    assert a == s.table + [Record(StoredId(m.id), Prepared, Kept(m.details))];
    assert forall i :: 0 <= i < |a| ==> |a[i].id| <= STORED;
  }

  lemma HandleKeepsUnique(s: State, m: Message)
    requires UniqueIds(s.table) && |m.id| <= STORED
    ensures UniqueIds(Handle(s, m).0.table)
  {
  }

  /** ... and only those: while there is room, preparing an id twice keeps the ids unique exactly when it fits. */
  lemma UniqueWhenPreparedTwiceIff(s: State, m: Message)
    requires m.kind == Prepare && !m.fails && |s.table| + 2 <= MAX_TRANSACTIONS
    requires UniqueIds(s.table) && forall i :: 0 <= i < |s.table| ==> |s.table[i].id| <= STORED
    ensures UniqueIds(Handle(Handle(s, m).0, m).0.table) <==> |m.id| <= STORED
  {
    if |m.id| <= STORED {
      HandleKeepsUnique(s, m);
      HandleKeepsUnique(Handle(s, m).0, m);
    } else {
      PreparedTwice(s, m);
    }
  }
}
