/**
  The clearing participant (server/clearing_participant.c): hold, settle and release requests to the
  clearing network, behind the shared circuit breaker and a retry loop with exponential backoff.
 */
module ClearingParticipant {
  import B = Breaker
  import opened Powers

  /** What a request brings back: no answer, though it may have been carried out, or an answer that is or is not OK. */
  datatype Reply = NoAnswer(done: bool) | Answered(ok: bool)

  /** The network did what was asked, whether or not it managed to say so. */
  predicate Done(r: Reply) {
    r == Answered(true) || r == NoAnswer(true)
  }

  datatype Kind = Hold | Settle | Release
  datatype Request = Request(kind: Kind, id: string)

  /** The requests sent so far, those answered with status OK, and those carried out. */
  datatype Network = Network(sent: seq<Request>, acked: seq<Request>, done: seq<Request>)

  function Send(net: Network, req: Request, reply: Reply): Network {
    Network(net.sent + [req],
            if reply == Answered(true) then net.acked + [req] else net.acked,
            if Done(reply) then net.done + [req] else net.done)
  }

  /** The participant's context. */
  datatype Ctx = Ctx(currentId: string, hasHold: bool)

  /** The context, the network and the shared breaker. */
  datatype Side = Side(ctx: Ctx, net: Network, breaker: B.State)

  /** The breaker's settings and CLEARING_RETRY_MAX. */
  datatype Settings = Settings(breaker: B.Config, maxRetries: nat)

  /**
    What happens around one call: what other workers do to the breaker before this call's check and
    between the check and the report, the clock at both, and the reply each attempt would get.
   */
  datatype Env = Env(before: seq<B.Event>, checkAt: int, replies: seq<Reply>, meanwhile: seq<B.Event>, reportAt: int)

  function ReplyTo(replies: seq<Reply>, attempt: nat): Reply {
    if attempt < |replies| then replies[attempt] else NoAnswer(false)
  }

  // ---------------------------------------------------------------- the retry loop

  /** The loop from attempt `a` on: the network, the last reply, and the milliseconds slept. */
  function Attempts(net: Network, req: Request, replies: seq<Reply>, maxRetries: nat, a: nat, slept: nat)
    : (Network, Reply, nat)
    decreases maxRetries + 1 - a
  {
    if a > maxRetries then (net, NoAnswer(false), slept)
    else
      var r := ReplyTo(replies, a);
      var n := Send(net, req, r);
      if r.Answered? then (n, r, slept)
      else Attempts(n, req, replies, maxRetries, a + 1, slept + 100 * Pow2(a))
  }

  /** One guarded request: short-circuited by the breaker, or the retry loop's last reply and one report. */
  datatype Guarded = ShortCircuited(side: Side) | Asked(side: Side, reply: Reply, slept: nat)

  function Ask(cfg: Settings, s: Side, req: Request, env: Env): Guarded {
    var seen := B.After(cfg.breaker, s.breaker, env.before);
    var checked := B.AfterCheck(cfg.breaker, seen, env.checkAt);
    if B.ShortCircuits(cfg.breaker, seen, env.checkAt) then ShortCircuited(s.(breaker := checked))
    else
      var (net, reply, slept) := Attempts(s.net, req, env.replies, cfg.maxRetries, 0, 0);
      var later := B.After(cfg.breaker, checked, env.meanwhile);
      Asked(Side(s.ctx, net, B.AfterReport(cfg.breaker, later, env.reportAt, reply.Answered?)), reply, slept)
  }

  // ---------------------------------------------------------------- the participant on values

  function SetTransaction(s: Side, id: string): Side {
    s.(ctx := s.ctx.(currentId := id))
  }

  function Prepare(cfg: Settings, s: Side, id: string, env: Env): (Side, int) {
    if s.ctx.currentId != id then (s, -1)
    else
      match Ask(cfg, s, Request(Hold, id), env)
      case ShortCircuited(t) => (t, -1)
      case Asked(t, reply, _) =>
        if reply == Answered(true) then (t.(ctx := t.ctx.(hasHold := true)), 0) else (t, -1)
  }

  function Commit(cfg: Settings, s: Side, id: string, env: Env): (Side, int) {
    if s.ctx.currentId != id || !s.ctx.hasHold then (s, -1)
    else
      match Ask(cfg, s, Request(Settle, id), env)
      case ShortCircuited(t) => (t, -1)
      case Asked(t, reply, _) =>
        if reply == Answered(true) then (t.(ctx := Ctx("", false)), 0) else (t, -1)
  }

  /** One request, no breaker, no retry, and always success. */
  function Abort(s: Side, id: string, reply: Reply): (Side, int) {
    (Side(Ctx("", false), Send(s.net, Request(Release, id), reply), s.breaker), 0)
  }

  function Destroy(s: Side, reply: Reply): Side {
    if s.ctx.hasHold then Abort(s, s.ctx.currentId, reply).0 else s
  }

  // ---------------------------------------------------------------- the object

  class Link {
    var net: Network

    constructor ()
      ensures net == Network([], [], [])
    {
      net := Network([], [], []);
    }

    /** simulate_clearing_request, the reply being the environment's choice. */
    method Post(req: Request, reply: Reply) returns (rc: int)
      modifies this
      ensures net == Send(old(net), req, reply)
      ensures rc == if reply.Answered? then 0 else -1
    {
      net := Send(net, req, reply);
      rc := if reply.Answered? then 0 else -1;
    }
  }

  class Participant {
    const link: Link
    const breaker: B.CircuitBreaker
    const maxRetries: nat
    var currentTxnId: string
    var hasHold: bool

    ghost function View(): Side
      reads this, link, breaker
    {
      Side(Ctx(currentTxnId, hasHold), link.net, breaker.View())
    }

    ghost function Cfg(): Settings {
      Settings(breaker.config, maxRetries)
    }

    /** clearing_participant_init */
    constructor (link: Link, breaker: B.CircuitBreaker, maxRetries: nat)
      ensures this.link == link && this.breaker == breaker && this.maxRetries == maxRetries
      ensures View() == Side(Ctx("", false), link.net, breaker.View())
    {
      this.link, this.breaker, this.maxRetries := link, breaker, maxRetries;
      currentTxnId, hasHold := "", false;
    }

    /** Other workers use the breaker. */
    method OtherWorkers(es: seq<B.Event>)
      modifies breaker
      ensures breaker.View() == B.After(breaker.config, old(breaker.View()), es)
    {
      for i := 0 to |es|
        invariant breaker.View() == B.After(breaker.config, old(breaker.View()), es[..i])
      {
        match es[i] {
          case Check(now) =>
            var _ := breaker.ShouldShortCircuit(now);
          case Report(now, ok) =>
            breaker.OnResult(now, ok);
        }
        assert es[..i + 1][..i] == es[..i];
      }
      assert es[..|es|] == es;
    }

    /** The retry loop. */
    method SendWithRetry(req: Request, replies: seq<Reply>) returns (last: Reply, slept: nat)
      modifies link
      ensures (link.net, last, slept) == Attempts(old(link.net), req, replies, maxRetries, 0, 0)
    {
      last, slept := NoAnswer(false), 0;
      var attempt := 0;
      while attempt <= maxRetries
        invariant 0 <= attempt <= maxRetries + 1 && last == NoAnswer(false)
        invariant Attempts(old(link.net), req, replies, maxRetries, 0, 0)
                  == Attempts(link.net, req, replies, maxRetries, attempt, slept)
      {
        last := ReplyTo(replies, attempt);
        var rc := link.Post(req, last);
        if rc == 0 {
          break;
        }
        last := NoAnswer(false);
        slept := slept + 100 * Pow2(attempt);
        attempt := attempt + 1;
      }
    }

    /** The part prepare and commit share: breaker check, requests, one report. */
    method Guard(req: Request, env: Env) returns (asked: bool, reply: Reply)
      modifies link, breaker
      ensures match Ask(Cfg(), old(View()), req, env)
              case ShortCircuited(t) => !asked && View() == t
              case Asked(t, r, _) => asked && reply == r && View() == t
      ensures !asked ==> reply == NoAnswer(false)
      ensures Exchanged(old(link.net), link.net, req, maxRetries, reply == Answered(true))
    {
      ExchangedByAsk(Cfg(), View(), req, env);
      OtherWorkers(env.before);
      var short := breaker.ShouldShortCircuit(env.checkAt);
      if short {
        return false, NoAnswer(false);
      }
      var slept;
      reply, slept := SendWithRetry(req, env.replies);
      OtherWorkers(env.meanwhile);
      breaker.OnResult(env.reportAt, reply.Answered?);
      asked := true;
    }

    /** clearing_participant_set_transaction */
    method SetTxn(id: string)
      modifies this`currentTxnId
      ensures View() == SetTransaction(old(View()), id)
      ensures currentTxnId == id && hasHold == old(hasHold) && link.net == old(link.net)
    {
      currentTxnId := id;
    }

    /** clearing_participant_prepare */
    method PrepareTxn(id: string, env: Env) returns (rc: int)
      modifies this, link, breaker
      ensures (View(), rc) == Prepare(Cfg(), old(View()), id, env)
      ensures old(currentTxnId) != id ==> rc == -1 && View() == old(View())
      ensures Exchanged(old(link.net), link.net, Request(Hold, id), maxRetries, rc == 0)
      ensures hasHold == (old(hasHold) || rc == 0) && currentTxnId == old(currentTxnId)
    {
      NothingExchanged(link.net, Request(Hold, id), maxRetries);
      if currentTxnId != id {
        return -1;
      }
      var asked, reply := Guard(Request(Hold, id), env);
      if !asked || reply != Answered(true) {
        return -1;
      }
      hasHold := true;
      return 0;
    }

    /** clearing_participant_commit */
    method CommitTxn(id: string, env: Env) returns (rc: int)
      modifies this, link, breaker
      ensures (View(), rc) == Commit(Cfg(), old(View()), id, env)
      ensures old(currentTxnId) != id || !old(hasHold) ==> rc == -1 && View() == old(View())
      ensures Exchanged(old(link.net), link.net, Request(Settle, id), maxRetries, rc == 0)
      ensures rc == 0 ==> old(hasHold) && !hasHold && currentTxnId == ""
      ensures rc != 0 ==> hasHold == old(hasHold) && currentTxnId == old(currentTxnId)
    {
      NothingExchanged(link.net, Request(Settle, id), maxRetries);
      if currentTxnId != id || !hasHold {
        return -1;
      }
      var asked, reply := Guard(Request(Settle, id), env);
      if !asked || reply != Answered(true) {
        return -1;
      }
      hasHold := false;
      currentTxnId := "";
      return 0;
    }

    /** clearing_participant_abort */
    method AbortTxn(id: string, reply: Reply) returns (rc: int)
      modifies this, link
      ensures (View(), rc) == Abort(old(View()), id, reply)
      ensures rc == 0 && !hasHold && currentTxnId == "" && breaker.View() == old(breaker.View())
      ensures link.net.sent == old(link.net.sent) + [Request(Release, id)]
    {
      var _ := link.Post(Request(Release, id), reply);
      hasHold := false;
      currentTxnId := "";
      return 0;
    }

    /** clearing_participant_destroy */
    method DestroyCtx(reply: Reply)
      modifies this, link
      ensures View() == Destroy(old(View()), reply)
      ensures !hasHold && breaker.View() == old(breaker.View())
      ensures link.net.sent == old(link.net.sent) + if old(hasHold) then [Request(Release, old(currentTxnId))] else []
    {
      if hasHold {
        var _ := AbortTxn(currentTxnId, reply);
      }
    }
  }

  // ---------------------------------------------------------------- retry accounting

  /** How many attempts in a row, from `a` on, are answered with nothing. */
  function Misses(replies: seq<Reply>, maxRetries: nat, a: nat): (k: nat)
    ensures a <= maxRetries + 1 ==> a + k <= maxRetries + 1
    ensures forall j :: a <= j < a + k ==> ReplyTo(replies, j).NoAnswer?
    ensures a + k <= maxRetries ==> ReplyTo(replies, a + k).Answered?
    decreases maxRetries + 1 - a
  {
    if a > maxRetries || ReplyTo(replies, a).Answered? then 0 else 1 + Misses(replies, maxRetries, a + 1)
  }

  /** The attempt the loop, from `a` on, does not make any more. */
  function AttemptsEnd(replies: seq<Reply>, maxRetries: nat, a: nat): (e: nat)
    ensures a <= e
  {
    var k := Misses(replies, maxRetries, a);
    if a + k <= maxRetries then a + k + 1 else a + k
  }

  /** How many of the attempts a .. e - 1 were carried out. */
  function DoneCount(replies: seq<Reply>, a: nat, e: nat): nat
    decreases e - a
  {
    if a >= e then 0 else (if Done(ReplyTo(replies, a)) then 1 else 0) + DoneCount(replies, a + 1, e)
  }

  function Repeat(req: Request, n: nat): seq<Request> {
    seq(n, _ => req)
  }

  lemma {:induction false} AttemptsExactly(net: Network, req: Request, replies: seq<Reply>, maxRetries: nat,
                                           a: nat, slept: nat)
    requires a <= maxRetries + 1
    ensures var k := Misses(replies, maxRetries, a);
            var (n, last, ms) := Attempts(net, req, replies, maxRetries, a, slept);
            && ms == slept + 100 * (Pow2(a + k) - Pow2(a))
            && n.sent == net.sent + Repeat(req, if a + k <= maxRetries then k + 1 else k)
            && (last.Answered? <==> a + k <= maxRetries)
            && (a + k <= maxRetries ==> last == ReplyTo(replies, a + k))
            && n.acked == if last == Answered(true) then net.acked + [req] else net.acked
    decreases maxRetries + 1 - a
  {
    if a <= maxRetries {
      var r := ReplyTo(replies, a);
      var n := Send(net, req, r);
      if r.NoAnswer? {
        AttemptsExactly(n, req, replies, maxRetries, a + 1, slept + 100 * Pow2(a));
        var m := |Attempts(net, req, replies, maxRetries, a, slept).0.sent| - |n.sent|;
        assert net.sent + [req] + Repeat(req, m) == net.sent + Repeat(req, m + 1);
      } else {
        assert Repeat(req, 1) == [req];
      }
    } else {
      assert net.sent + Repeat(req, 0) == net.sent;
    }
  }

  /** Each attempt that was carried out was carried out once. */
  lemma {:induction false} AttemptsDone(net: Network, req: Request, replies: seq<Reply>, maxRetries: nat, a: nat,
                                        slept: nat)
    requires a <= maxRetries + 1
    ensures Attempts(net, req, replies, maxRetries, a, slept).0.done
            == net.done + Repeat(req, DoneCount(replies, a, AttemptsEnd(replies, maxRetries, a)))
    decreases maxRetries + 1 - a
  {
    if a <= maxRetries {
      var r := ReplyTo(replies, a);
      var n := Send(net, req, r);
      var d := if Done(r) then 1 else 0;
      var e := AttemptsEnd(replies, maxRetries, a);
      if r.NoAnswer? {
        AttemptsDone(n, req, replies, maxRetries, a + 1, slept + 100 * Pow2(a));
        assert AttemptsEnd(replies, maxRetries, a + 1) == e;
      } else {
        assert e == a + 1 && DoneCount(replies, a + 1, e) == 0;
      }
      RepeatMore(net.done, req, d, DoneCount(replies, a + 1, e));
    } else {
      assert net.done + Repeat(req, 0) == net.done;
    }
  }

  lemma RepeatMore(before: seq<Request>, req: Request, d: nat, m: nat)
    requires d <= 1
    ensures (if d == 1 then before + [req] else before) + Repeat(req, m) == before + Repeat(req, d + m)
  {
  }

  lemma BreakerConcat(c: B.Config, s: B.State, a: seq<B.Event>, b: seq<B.Event>)
    ensures B.After(c, s, a + b) == B.After(c, B.After(c, s, a), b)
  {
    if b == [] {
      assert a + b == a;
    } else {
      assert (a + b)[..|a + b| - 1] == a + b[..|b| - 1];
    }
  }

  lemma BreakerOne(c: B.Config, s: B.State, a: seq<B.Event>, e: B.Event)
    ensures B.After(c, s, a + [e]) == B.Step(c, B.After(c, s, a), e)
  {
    assert (a + [e])[..|a|] == a;
  }

  /** How often a request that is not short-circuited is carried out. */
  function TimesDone(cfg: Settings, env: Env): nat {
    DoneCount(env.replies, 0, AttemptsEnd(env.replies, cfg.maxRetries, 0))
  }

  /** The guarded request is carried out at least once. */
  predicate CarriedOut(cfg: Settings, s: Side, env: Env) {
    && !B.ShortCircuits(cfg.breaker, B.After(cfg.breaker, s.breaker, env.before), env.checkAt)
    && TimesDone(cfg, env) > 0
  }

  /** What is answered yes was carried out. */
  lemma {:induction false} AnsweredIsDone(replies: seq<Reply>, maxRetries: nat, a: nat)
    requires a + Misses(replies, maxRetries, a) <= maxRetries
    requires ReplyTo(replies, a + Misses(replies, maxRetries, a)) == Answered(true)
    ensures DoneCount(replies, a, AttemptsEnd(replies, maxRetries, a)) > 0
    decreases maxRetries - a
  {
    if !ReplyTo(replies, a).Answered? {
      AnsweredIsDone(replies, maxRetries, a + 1);
    }
  }

  /**
    A guarded request either short-circuits, sending nothing and reporting nothing, or sends the same request
    at most maxRetries + 1 times and reports to the breaker exactly once; k misses sleep 100 * (2^k - 1) ms.
   */
  lemma RetryAccounting(cfg: Settings, s: Side, req: Request, env: Env)
    ensures var g := Ask(cfg, s, req, env);
            var k := Misses(env.replies, cfg.maxRetries, 0);
            var seen := env.before + [B.Check(env.checkAt)];
            if B.ShortCircuits(cfg.breaker, B.After(cfg.breaker, s.breaker, env.before), env.checkAt) then
              g == ShortCircuited(Side(s.ctx, s.net, B.After(cfg.breaker, s.breaker, seen)))
            else
              && g.Asked?
              && (exists n: nat :: 1 <= n <= cfg.maxRetries + 1 && k <= n <= k + 1
                                   && g.side.net.sent == s.net.sent + Repeat(req, n))
              && (g.reply.Answered? <==> k <= cfg.maxRetries)
              && g.side.net.acked == (if g.reply == Answered(true) then s.net.acked + [req] else s.net.acked)
              && g.side.net.done == s.net.done + Repeat(req, TimesDone(cfg, env))
              && g.slept == 100 * (Pow2(k) - 1)
              && g.side.breaker == B.After(cfg.breaker, s.breaker,
                                           seen + env.meanwhile + [B.Report(env.reportAt, k <= cfg.maxRetries)])
              && g.side.ctx == s.ctx
  {
    var c := cfg.breaker;
    var seen := env.before + [B.Check(env.checkAt)];
    BreakerOne(c, s.breaker, env.before, B.Check(env.checkAt));
    BreakerConcat(c, s.breaker, seen, env.meanwhile);
    var k := Misses(env.replies, cfg.maxRetries, 0);
    BreakerOne(c, s.breaker, seen + env.meanwhile, B.Report(env.reportAt, k <= cfg.maxRetries));
    AttemptsExactly(s.net, req, env.replies, cfg.maxRetries, 0, 0);
    AttemptsDone(s.net, req, env.replies, cfg.maxRetries, 0, 0);
  }

  /** At most maxRetries + 1 copies of the request went out, and one was acknowledged exactly when `ok`. */
  ghost predicate Exchanged(before: Network, after: Network, req: Request, maxRetries: nat, ok: bool) {
    && (exists n: nat :: n <= maxRetries + 1 && after.sent == before.sent + Repeat(req, n))
    && after.acked == if ok then before.acked + [req] else before.acked
  }

  lemma NothingExchanged(net: Network, req: Request, maxRetries: nat)
    ensures Exchanged(net, net, req, maxRetries, false)
  {
    assert net.sent == net.sent + Repeat(req, 0);
  }

  lemma ExchangedByAsk(cfg: Settings, s: Side, req: Request, env: Env)
    ensures match Ask(cfg, s, req, env)
            case ShortCircuited(t) => Exchanged(s.net, t.net, req, cfg.maxRetries, false)
            case Asked(t, reply, _) => Exchanged(s.net, t.net, req, cfg.maxRetries, reply == Answered(true))
  {
    RetryAccounting(cfg, s, req, env);
    NothingExchanged(s.net, req, cfg.maxRetries);
  }

  /** A guarded request that is answered yes was carried out. */
  lemma SucceededIsDone(cfg: Settings, s: Side, req: Request, env: Env)
    ensures var g := Ask(cfg, s, req, env); g.Asked? && g.reply == Answered(true) ==> CarriedOut(cfg, s, env)
  {
    var g := Ask(cfg, s, req, env);
    if g.Asked? && g.reply == Answered(true) {
      AttemptsExactly(s.net, req, env.replies, cfg.maxRetries, 0, 0);
      AnsweredIsDone(env.replies, cfg.maxRetries, 0);
    }
  }

  /** Destroying a context that remembers a hold sends one release for it, and otherwise nothing. */
  lemma DestroyMeans(s: Side, reply: Reply)
    ensures var t := Destroy(s, reply);
            && !t.ctx.hasHold && t.breaker == s.breaker
            && t.net.sent == s.net.sent + (if s.ctx.hasHold then [Request(Release, s.ctx.currentId)] else [])
            && (!s.ctx.hasHold ==> t == s)
  {
    assert s.net.sent + [] == s.net.sent;
  }

  // ---------------------------------------------------------------- 32-bit backoff

  const TWO_32 := 0x1_0000_0000

  /** usleep's argument as the source computes it: (useconds_t)(100 * (1 << attempt)) * 1000 in 32 bits. */
  function BackoffMicros(attempt: nat): nat {
    100 * Pow2(attempt) % TWO_32 * 1000 % TWO_32
  }

  /** The backoff is the intended number of microseconds exactly up to attempt 15. */
  lemma {:induction false} BackoffExact(attempt: nat)
    ensures BackoffMicros(attempt) == 100 * Pow2(attempt) * 1000 <==> attempt <= 15
  {
    Pow2At16();
    if attempt <= 15 {
      Pow2Grows(attempt, 15);
    } else {
      Pow2Grows(16, attempt);
    }
  }
}
