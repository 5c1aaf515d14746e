/**
  The process-wide circuit breaker in front of the clearing network (server/clearing_participant.c).

  All workers share one breaker, so its life is a sequence of events in lock order: checks before a
  request and reports after one, each with the clock value its caller read.  Clock values are positive
  (0 means "no window yet" in the source).
 */
module Breaker {

  /**
    CLEARING_CB_WINDOW, CLEARING_CB_FAILS and CLEARING_CB_OPEN_SECS; non-positive settings are replaced by defaults.
   */
  datatype Config = Config(window: int, threshold: int, openFor: int) {
    ghost predicate Valid() {
      window > 0 && threshold > 0 && openFor > 0
    }
  }

  datatype State = State(failures: int, windowStart: int, open: bool, openedAt: int)

  datatype Event = Check(now: int) | Report(now: int, ok: bool)

  const START := State(0, 0, false, 0)

  // ---------------------------------------------------------------- the two operations on values

  /** Start a new window when there is none or the current one is over. */
  function Refresh(c: Config, s: State, now: int): State {
    if s.windowStart == 0 || now - s.windowStart > c.window
    then s.(windowStart := now, failures := 0)
    else s
  }

  predicate ShortCircuits(c: Config, s: State, now: int) {
    s.open && now - s.openedAt < c.openFor
  }

  function AfterCheck(c: Config, s: State, now: int): State {
    if ShortCircuits(c, s, now) then s
    else Refresh(c, if s.open then s.(open := false, failures := 0, windowStart := now) else s, now)
  }

  function AfterReport(c: Config, s: State, now: int, ok: bool): State {
    if ok then s.(failures := 0, windowStart := if s.windowStart == 0 then now else s.windowStart)
    else
      var r := Refresh(c, s, now);
      var f := r.(failures := r.failures + 1);
      if !f.open && f.failures >= c.threshold then f.(open := true, openedAt := now) else f
  }

  function Step(c: Config, s: State, e: Event): State {
    match e
    case Check(now) => AfterCheck(c, s, now)
    case Report(now, ok) => AfterReport(c, s, now, ok)
  }

  function After(c: Config, s: State, es: seq<Event>): State {
    if es == [] then s else Step(c, After(c, s, es[..|es| - 1]), es[|es| - 1])
  }

  // ---------------------------------------------------------------- the shared object

  class CircuitBreaker {
    const config: Config
    var failureCount: int
    var windowStart: int
    var open: bool
    var openedAt: int

    ghost function View(): State
      reads this
    {
      State(failureCount, windowStart, open, openedAt)
    }

    constructor (config: Config)
      ensures this.config == config && View() == START
    {
      this.config := config;
      failureCount, windowStart, open, openedAt := 0, 0, false, 0;
    }

    /** cb_should_short_circuit */
    method ShouldShortCircuit(now: int) returns (short: bool)
      modifies this
      ensures short == ShortCircuits(config, old(View()), now)
      ensures View() == Step(config, old(View()), Check(now))
    {
      if open {
        if now - openedAt < config.openFor {
          return true;
        }
        open := false;
        failureCount := 0;
        windowStart := now;
      }
      if windowStart == 0 || now - windowStart > config.window {
        windowStart := now;
        failureCount := 0;
      }
      return false;
    }

    /** cb_on_result */
    method OnResult(now: int, ok: bool)
      modifies this
      ensures View() == Step(config, old(View()), Report(now, ok))
    {
      if ok {
        failureCount := 0;
        if windowStart == 0 {
          windowStart := now;
        }
      } else {
        if windowStart == 0 || now - windowStart > config.window {
          windowStart := now;
          failureCount := 0;
        }
        failureCount := failureCount + 1;
        if !open && failureCount >= config.threshold {
          open := true;
          openedAt := now;
        }
      }
    }
  }

  // ---------------------------------------------------------------- runs

  predicate IsFailure(e: Event) {
    e.Report? && !e.ok
  }

  function Failures(es: seq<Event>): nat {
    if es == [] then 0 else Failures(es[..|es| - 1]) + if IsFailure(es[|es| - 1]) then 1 else 0
  }

  /** A closed breaker is below its threshold. */
  predicate BelowThreshold(c: Config, s: State) {
    !s.open ==> 0 <= s.failures < c.threshold
  }

  lemma {:induction false} ClosedMeansBelow(c: Config, s: State, es: seq<Event>)
    requires c.Valid() && s.failures >= 0 && BelowThreshold(c, s)
    ensures After(c, s, es).failures >= 0 && BelowThreshold(c, After(c, s, es))
  {
    if es != [] {
      ClosedMeansBelow(c, s, es[..|es| - 1]);
    }
  }

  // ---------------------------------------------------------------- windows

  /** A check that finds the breaker open long enough, and closes it. */
  predicate ClosesIt(c: Config, s: State, e: Event) {
    e.Check? && s.open && !ShortCircuits(c, s, e.now)
  }

  /** The event finds no window, or one that is over; a success does not look, and a short-circuited check neither. */
  predicate FindsWindowOver(c: Config, s: State, e: Event) {
    && (s.windowStart == 0 || (e.now - s.windowStart > c.window && !(e.Report? && e.ok)))
    && !(e.Check? && ShortCircuits(c, s, e.now))
  }

  /** What every event does to the window and the count: a new window starts now, and otherwise the window stays. */
  lemma WindowStep(c: Config, s: State, e: Event)
    requires c.Valid() && e.now > 0
    ensures var t := Step(c, s, e);
            && t.windowStart == (if FindsWindowOver(c, s, e) || ClosesIt(c, s, e) then e.now else s.windowStart)
            && t.failures == if e.Report? && e.ok then 0
                             else (if FindsWindowOver(c, s, e) || ClosesIt(c, s, e) then 0 else s.failures)
                                  + if IsFailure(e) then 1 else 0
  {
  }

  /** A window in force is kept by every event but a check that closes the breaker. */
  lemma WindowInForceStays(c: Config, s: State, e: Event)
    requires s.windowStart != 0 && e.now - s.windowStart <= c.window && !ClosesIt(c, s, e)
    ensures Step(c, s, e).windowStart == s.windowStart
  {
  }

  ghost predicate NeverCloses(c: Config, s: State, es: seq<Event>) {
    forall k :: 0 <= k < |es| ==> !ClosesIt(c, After(c, s, es[..k]), es[k])
  }

  /** Two window starts lie more than `window` seconds apart unless a check closed the breaker between them. */
  lemma {:induction false} WindowsAreApart(c: Config, s: State, es: seq<Event>)
    requires c.Valid() && s.windowStart > 0 && NeverCloses(c, s, es) && forall e :: e in es ==> e.now > 0
    ensures var t := After(c, s, es).windowStart; t == s.windowStart || t > s.windowStart + c.window
  {
    if es != [] {
      var before, e := es[..|es| - 1], es[|es| - 1];
      assert forall k :: 0 <= k < |before| ==> before[k] == es[k] && before[..k] == es[..k];
      assert e in es && forall x :: x in before ==> x in es;
      WindowsAreApart(c, s, before);
      WindowStep(c, After(c, s, before), e);
    }
  }

  // ---------------------------------------------------------------- it must trip

  /** Nothing but checks and failures, all within `span` seconds of `from`. */
  ghost predicate BadSpell(es: seq<Event>, from: int, span: int) {
    forall e :: e in es ==> 0 < from <= e.now <= from + span && (e.Report? ==> !e.ok)
  }

  ghost predicate StaysClosed(c: Config, s: State, es: seq<Event>) {
    forall k :: 0 <= k <= |es| ==> !After(c, s, es[..k]).open
  }

  /** While it stays closed, a bad spell sees at most one window restart, which forgets less than a threshold. */
  lemma {:induction false} SpellIsCounted(c: Config, s: State, es: seq<Event>, from: int)
    requires c.Valid() && BelowThreshold(c, s)
    requires BadSpell(es, from, c.window) && StaysClosed(c, s, es)
    ensures var t := After(c, s, es);
            && BelowThreshold(c, t)
            && (t.failures >= Failures(es)
                || (from <= t.windowStart <= from + c.window && t.failures + c.threshold - 1 >= Failures(es)))
  {
    assert es[..|es|] == es;
    if es == [] {
      assert !After(c, s, es[..0]).open;
    } else {
      var before := es[..|es| - 1];
      assert forall k :: 0 <= k <= |before| ==> before[..k] == es[..k];
      SpellIsCounted(c, s, before, from);
      assert es[|es| - 1] in es;
      assert !After(c, s, es[..|es|]).open && !After(c, s, es[..|before|]).open;
    }
  }

  /** Any 2*threshold-1 failures in a row within one window length open the breaker along the way. */
  lemma {:induction false} MustTrip(c: Config, history: seq<Event>, es: seq<Event>, from: int)
    requires c.Valid()
    requires BadSpell(es, from, c.window) && Failures(es) >= 2 * c.threshold - 1
    ensures exists k :: 0 <= k <= |es| && After(c, After(c, START, history), es[..k]).open
  {
    var s := After(c, START, history);
    ClosedMeansBelow(c, START, history);
    assert es[..|es|] == es;
    if StaysClosed(c, s, es) {
      SpellIsCounted(c, s, es, from);
    }
  }

  function Burst(now: int, n: nat): seq<Event> {
    seq(n, _ => Report(now, false))
  }

  /** Two bursts, one second apart, with a window boundary between them. */
  function NearMiss(c: Config): seq<Event>
    requires c.Valid()
  {
    Burst(c.window + 1, c.threshold - 1) + Burst(c.window + 2, c.threshold - 1)
  }

  lemma {:induction false} NearMissState(c: Config, k: nat)
    requires c.Valid() && k <= |NearMiss(c)|
    ensures Failures(NearMiss(c)[..k]) == k
    ensures After(c, State(0, 1, false, 0), NearMiss(c)[..k])
            == if k <= c.threshold - 1 then State(k, 1, false, 0)
               else State(k - (c.threshold - 1), c.window + 2, false, 0)
  {
    if k > 0 {
      NearMissState(c, k - 1);
      assert NearMiss(c)[..k][..k - 1] == NearMiss(c)[..k - 1];
    }
  }

  /** The bound is tight: for every setting, 2*threshold-2 failures one second apart can leave it closed. */
  lemma MustTripIsTight(c: Config)
    requires c.Valid()
    ensures var es := NearMiss(c);
            && BadSpell(es, c.window + 1, 1)
            && Failures(es) == 2 * c.threshold - 2
            && StaysClosed(c, After(c, START, [Check(1)]), es)
  {
    var es := NearMiss(c);
    assert es[..|es|] == es;
    NearMissState(c, |es|);
    assert [Check(1)][..0] == [] && After(c, START, [Check(1)]) == State(0, 1, false, 0);
    forall k | 0 <= k <= |es|
      ensures !After(c, State(0, 1, false, 0), es[..k]).open
    {
      NearMissState(c, k);
    }
  }

  // ---------------------------------------------------------------- it trips only with cause

  /** Clock values never decrease in lock order. */
  ghost predicate Timely(h: seq<Event>) {
    && (forall i :: 0 <= i < |h| ==> h[i].now > 0)
    && (forall i, j :: 0 <= i < j < |h| ==> h[i].now <= h[j].now)
  }

  predicate Expired(c: Config, s: State, now: int) {
    s.windowStart == 0 || now - s.windowStart > c.window
  }

  /** The event leaves the run of failures being counted as it is, or adds to it. */
  predicate KeepsCount(c: Config, s: State, e: Event) {
    match e
    case Check(now) => ShortCircuits(c, s, now) || (!s.open && !Expired(c, s, now))
    case Report(now, ok) => !ok && !Expired(c, s, now)
  }

  /** Where the failures the breaker is now counting begin in its history. */
  function Since(c: Config, h: seq<Event>): (i: nat)
    ensures i <= |h|
  {
    if h == [] then 0
    else
      var before := h[..|h| - 1];
      var e := h[|h| - 1];
      if KeepsCount(c, After(c, START, before), e) then Since(c, before)
      else if IsFailure(e) then |h| - 1
      else |h|
  }

  /** What is counted: consecutive failures, all inside the current window. */
  ghost predicate Counted(c: Config, h: seq<Event>, i: nat, s: State) {
    && i <= |h|
    && s.failures == Failures(h[i..])
    && (forall j :: i <= j < |h| ==> !(h[j].Report? && h[j].ok))
    && (forall j :: i <= j < |h| && IsFailure(h[j]) ==> s.windowStart <= h[j].now <= s.windowStart + c.window)
    && (h != [] ==> s.windowStart <= h[|h| - 1].now)
  }

  lemma FailuresOne(es: seq<Event>, e: Event)
    ensures Failures(es + [e]) == Failures(es) + if IsFailure(e) then 1 else 0
  {
    assert (es + [e])[..|es|] == es;
  }

  /** The step keeps the run of failures being counted. */
  lemma CountedOn(c: Config, h: seq<Event>, i: nat, s: State, e: Event)
    requires Counted(c, h, i, s) && e.now > 0 && (h != [] ==> h[|h| - 1].now <= e.now) && (h == [] ==> s == START)
    requires KeepsCount(c, s, e)
    ensures Counted(c, h + [e], i, Step(c, s, e))
  {
    var g := h + [e];
    assert g[i..] == h[i..] + [e];
    FailuresOne(h[i..], e);
    assert forall j :: i <= j < |h| ==> g[j] == h[j];
  }

  /** The step starts a new run of failures, at itself or after itself. */
  lemma CountedAfresh(c: Config, h: seq<Event>, s: State, e: Event)
    requires c.Valid() && e.now > 0 && (h != [] ==> h[|h| - 1].now <= e.now)
    requires s.windowStart <= e.now
    requires !KeepsCount(c, s, e)
    ensures Counted(c, h + [e], if IsFailure(e) then |h| else |h| + 1, Step(c, s, e))
  {
    var g := h + [e];
    assert g[|h|..] == [] + [e] && g[|h| + 1..] == [];
    FailuresOne([], e);
  }

  lemma TimelyPrefix(before: seq<Event>, e: Event, h: seq<Event>)
    requires Timely(h) && h == before + [e]
    ensures Timely(before) && e.now > 0 && (before != [] ==> before[|before| - 1].now <= e.now)
  {
    assert forall i :: 0 <= i < |before| ==> before[i] == h[i];
    assert h[|before|] == e;
  }

  lemma {:induction false} CountIsWitnessed(c: Config, h: seq<Event>)
    requires c.Valid() && Timely(h)
    ensures Counted(c, h, Since(c, h), After(c, START, h))
  {
    if h == [] {
      assert Failures(h[0..]) == 0;
    } else {
      var before := h[..|h| - 1];
      var e := h[|h| - 1];
      assert h == before + [e];
      TimelyPrefix(before, e, h);
      CountIsWitnessed(c, before);
      var s, i := After(c, START, before), Since(c, before);
      assert After(c, START, h) == Step(c, s, e);
      if KeepsCount(c, s, e) {
        assert Since(c, h) == i;
        CountedOn(c, before, i, s, e);
      } else {
        assert Since(c, h) == if IsFailure(e) then |before| else |before| + 1;
        CountedAfresh(c, before, s, e);
      }
    }
  }

  /** Every opening is caused by `threshold` failures in a row inside one window, the last one opening it. */
  lemma {:induction false} TripsOnlyWithCause(c: Config, h: seq<Event>)
    requires c.Valid() && Timely(h) && h != []
    requires !After(c, START, h[..|h| - 1]).open && After(c, START, h).open
    ensures var now := h[|h| - 1].now;
            var i := Since(c, h);
            && After(c, START, h).openedAt == now
            && Failures(h[i..]) == c.threshold
            && (forall j :: i <= j < |h| ==> h[j].Report? ==> !h[j].ok)
            && (forall j :: i <= j < |h| && IsFailure(h[j]) ==> now - c.window <= h[j].now <= now)
  {
    CountIsWitnessed(c, h);
    ClosedMeansBelow(c, START, h[..|h| - 1]);
  }

  // ---------------------------------------------------------------- it stays open

  /**
    Until a check at or after openedAt + openFor, it stays open whatever is reported, and every check short-circuits.
   */
  lemma {:induction false} StaysOpen(c: Config, s: State, es: seq<Event>)
    requires s.open
    requires forall e :: e in es && e.Check? ==> e.now < s.openedAt + c.openFor
    ensures After(c, s, es).open && After(c, s, es).openedAt == s.openedAt
    ensures forall k :: 0 <= k < |es| && es[k].Check? ==> ShortCircuits(c, After(c, s, es[..k]), es[k].now)
  {
    if es != [] {
      var before, e := es[..|es| - 1], es[|es| - 1];
      assert e in es && forall x :: x in before ==> x in es;
      StaysOpen(c, s, before);
      OpenStays(c, After(c, s, before), e);
      forall k | 0 <= k < |es| && es[k].Check?
        ensures ShortCircuits(c, After(c, s, es[..k]), es[k].now)
      {
        if k < |before| {
          assert before[k] == es[k] && before[..k] == es[..k];
        }
      }
    }
  }

  lemma OpenStays(c: Config, s: State, e: Event)
    requires s.open && (e.Check? ==> e.now < s.openedAt + c.openFor)
    ensures Step(c, s, e).open && Step(c, s, e).openedAt == s.openedAt
    ensures e.Check? ==> ShortCircuits(c, s, e.now)
  {
  }

  /** What a success does to the breaker: it closes nothing, and starts a window only where there was none. */
  lemma SuccessClosesAndRefreshesIff(c: Config, s: State, now: int)
    ensures var t := Step(c, s, Report(now, true));
            && t.failures == 0
            && (!t.open <==> !s.open) && t.openedAt == s.openedAt
            && (t.windowStart == now <==> s.windowStart == 0 || s.windowStart == now)
            && (s.windowStart != 0 ==> t.windowStart == s.windowStart)
  {
  }

  /** The first check at or after that closes it, with a clean count and a new window. */
  lemma ClosesOnTime(c: Config, s: State, es: seq<Event>, now: int)
    requires c.Valid() && s.open && now > 0
    requires forall e :: e in es && e.Check? ==> e.now < s.openedAt + c.openFor
    requires now >= s.openedAt + c.openFor
    ensures !ShortCircuits(c, After(c, s, es), now)
    ensures var t := After(c, s, es + [Check(now)]); !t.open && t.failures == 0 && t.windowStart == now
  {
    StaysOpen(c, s, es);
    assert (es + [Check(now)])[..|es|] == es;
  }
}
