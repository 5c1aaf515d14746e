/**
  The server's velocity limiter (server/risk.c): a table of 1024 slots, one per PAN, each with the start of its
  window and a count; a new PAN takes the first free slot or evicts the slot with the oldest window.

  One evaluation reads the clock twice: `now` when it starts and `seen` when it looks for the slot.
 */
module Velocity {

  const VEL_CAP := 1024

  datatype Slot = Slot(pan: string, start: int, count: int)

  const EMPTY := Slot("", 0, 0)

  /** RISK_ENABLED, RISK_VEL_LIMIT and RISK_VEL_WINDOW_SEC; non-positive limits keep their defaults. */
  datatype Config = Config(enabled: bool, limit: int, window: int) {
    predicate Valid() {
      limit > 0 && window > 0
    }
  }

  datatype Request = Request(pan: string, now: int, seen: int)

  // ---------------------------------------------------------------- choosing a slot

  /** First slot satisfying the test from i on, or the length. */
  function FindPan(slots: seq<Slot>, pan: string, i: nat): (k: nat)
    requires i <= |slots|
    ensures i <= k <= |slots|
    ensures forall j :: i <= j < k ==> slots[j].pan != pan
    ensures k < |slots| ==> slots[k].pan == pan
    decreases |slots| - i
  {
    if i == |slots| || slots[i].pan == pan then i else FindPan(slots, pan, i + 1)
  }

  /** The last strict improvement on `best`, scanning from i on. */
  function OldestFrom(slots: seq<Slot>, i: nat, best: int, at: int): int
    requires i <= |slots|
    decreases |slots| - i
  {
    if i == |slots| then at
    else if slots[i].start < best then OldestFrom(slots, i + 1, slots[i].start, i)
    else OldestFrom(slots, i + 1, best, at)
  }

  predicate Known(slots: seq<Slot>, pan: string) {
    pan != "" && FindPan(slots, pan, 0) < |slots|
  }

  /** The slot an evaluation at clock `seen` uses: the PAN's own, else the first free one, else the oldest. */
  function Choose(slots: seq<Slot>, pan: string, seen: int): int {
    if Known(slots, pan) then FindPan(slots, pan, 0)
    else if FindPan(slots, "", 0) < |slots| then FindPan(slots, "", 0)
    else
      var k := OldestFrom(slots, 0, seen, -1);
      if k < 0 then 0 else k
  }

  /** The table with the PAN's slot in place, and where that is. */
  function Get(slots: seq<Slot>, pan: string, seen: int): (r: (seq<Slot>, nat))
    requires slots != []
    ensures |r.0| == |slots| && r.1 < |slots| && r.0[r.1].pan == pan
  {
    OldestInRange(slots, 0, seen, -1);
    var k := Choose(slots, pan, seen);
    (if Known(slots, pan) then slots else slots[k := Slot(pan, seen, 0)], k)
  }

  lemma OldestInRange(slots: seq<Slot>, i: nat, best: int, at: int)
    requires i <= |slots| && -1 <= at < i
    ensures -1 <= OldestFrom(slots, i, best, at) < |slots|
    decreases |slots| - i
  {
    if i < |slots| {
      if slots[i].start < best {
        OldestInRange(slots, i + 1, slots[i].start, i);
      } else {
        OldestInRange(slots, i + 1, best, at);
      }
    }
  }

  /** A PAN keeps its slot; a new one takes the first free slot, and only that changes. */
  lemma ChoosesSlot(slots: seq<Slot>, pan: string, seen: int)
    requires slots != []
    ensures var (t, k) := Get(slots, pan, seen);
            && (Known(slots, pan) ==> t == slots && slots[k].pan == pan)
            && (!Known(slots, pan) && FindPan(slots, "", 0) < |slots| ==>
                  && slots[k].pan == "" && (forall j :: 0 <= j < k ==> slots[j].pan != "")
                  && t == slots[k := Slot(pan, seen, 0)])
  {
  }

  /** The entry after counting one request. */
  function Counted(c: Config, e: Slot, now: int): Slot {
    var r := if now - e.start >= c.window then e.(start := now, count := 0) else e;
    r.(count := r.count + 1)
  }

  function Evaluate(c: Config, slots: seq<Slot>, r: Request): (seq<Slot>, bool)
    requires slots != []
  {
    if !c.enabled then (slots, true)
    else
      var (t, k) := Get(slots, r.pan, r.seen);
      var e := Counted(c, t[k], r.now);
      (t[k := e], e.count <= c.limit)
  }

  // ---------------------------------------------------------------- the table

  class Table {
    const config: Config
    const slots: array<Slot>

    /** risk_init */
    constructor (config: Config)
      ensures this.config == config && slots[..] == seq(VEL_CAP, _ => EMPTY) && fresh(slots)
    {
      this.config := config;
      slots := new Slot[VEL_CAP](_ => EMPTY);
    }

    /** vel_get: one pass that looks for the PAN, the first free slot and the oldest window at once. */
    method VelGet(pan: string, seen: int) returns (idx: nat)
      requires slots.Length > 0
      modifies slots
      ensures idx < slots.Length
      ensures (slots[..], idx) == Get(old(slots[..]), pan, seen)
    {
      ghost var all := slots[..];
      OldestInRange(all, 0, seen, -1);
      var free, oldest, oldestIdx := -1, seen, -1;
      var i := 0;
      while i < slots.Length
        invariant 0 <= i <= slots.Length && slots[..] == all
        invariant pan != "" ==> FindPan(all, pan, 0) == FindPan(all, pan, i)
        invariant if free < 0 then FindPan(all, "", 0) == FindPan(all, "", i)
                  else free < i && FindPan(all, "", 0) == free
        invariant free < 0 ==> OldestFrom(all, 0, seen, -1) == OldestFrom(all, i, oldest, oldestIdx)
        invariant -1 <= oldestIdx < i
      {
        if slots[i].pan == "" {
          if free < 0 {
            free := i;
          }
        } else {
          if slots[i].pan == pan {
            return i;
          }
          if slots[i].start < oldest {
            oldest, oldestIdx := slots[i].start, i;
          }
        }
        i := i + 1;
      }
      var k := if free >= 0 then free else oldestIdx;
      idx := if k < 0 then 0 else k;
      slots[idx] := Slot(pan, seen, 0);
    }

    /** risk_evaluate */
    method RiskEvaluate(r: Request) returns (allow: bool)
      requires slots.Length > 0
      modifies slots
      ensures (slots[..], allow) == Evaluate(config, old(slots[..]), r)
    {
      if !config.enabled {
        return true;
      }
      var k := VelGet(r.pan, r.seen);
      if r.now - slots[k].start >= config.window {
        slots[k] := Slot(slots[k].pan, r.now, 0);
      }
      slots[k] := slots[k].(count := slots[k].count + 1);
      assert slots[..] == Evaluate(config, old(slots[..]), r).0;
      allow := slots[k].count <= config.limit;
    }
  }

  // ---------------------------------------------------------------- eviction

  /** No slot has an older window, and no earlier slot has one as old. */
  ghost predicate FirstOldest(slots: seq<Slot>, k: int) {
    && 0 <= k < |slots|
    && (forall j :: 0 <= j < |slots| ==> slots[k].start <= slots[j].start)
    && (forall j :: 0 <= j < k ==> slots[k].start < slots[j].start)
  }

  lemma OldestIsMinimal(slots: seq<Slot>, i: nat, best: int, at: int)
    requires i <= |slots| && -1 <= at < i
    requires at >= 0 ==> slots[at].start == best && forall j :: 0 <= j < at ==> best < slots[j].start
    requires forall j :: 0 <= j < i ==> best <= slots[j].start
    ensures var k := OldestFrom(slots, i, best, at);
            if k >= 0 then FirstOldest(slots, k)
            else at < 0 && forall j :: 0 <= j < |slots| ==> best <= slots[j].start
    decreases |slots| - i
  {
    if i < |slots| {
      if slots[i].start < best {
        OldestIsMinimal(slots, i + 1, slots[i].start, i);
      } else {
        OldestIsMinimal(slots, i + 1, best, at);
      }
    }
  }

  /** When no slot is free, a new PAN replaces the first slot among those with the oldest window, and only that. */
  lemma EvictsOldest(slots: seq<Slot>, pan: string, seen: int)
    requires slots != [] && !Known(slots, pan) && FindPan(slots, "", 0) == |slots|
    requires forall j :: 0 <= j < |slots| ==> slots[j].start <= seen
    ensures var (t, k) := Get(slots, pan, seen);
            t == slots[k := Slot(pan, seen, 0)] && FirstOldest(slots, k)
  {
    if forall j :: 0 <= j < |slots| ==> seen <= slots[j].start {
      OldestFromStays(slots, 0, seen);
    } else {
      OldestIsMinimal(slots, 0, seen, -1);
    }
  }

  lemma OldestFromStays(slots: seq<Slot>, i: nat, best: int)
    requires i <= |slots| && forall j :: i <= j < |slots| ==> best <= slots[j].start
    ensures OldestFrom(slots, i, best, -1) == -1
    decreases |slots| - i
  {
  }

  // ---------------------------------------------------------------- runs

  /** The clock never runs backwards, within an evaluation or from one to the next. */
  ghost predicate Timely(h: seq<Request>) {
    && (forall i :: 0 <= i < |h| ==> h[i].now <= h[i].seen)
    && (forall i, j :: 0 <= i < j < |h| ==> h[i].seen <= h[j].now)
  }

  /** The table after a history, from the empty table. */
  function After(c: Config, h: seq<Request>): (t: seq<Slot>)
    ensures |t| == VEL_CAP
  {
    if h == [] then seq(VEL_CAP, _ => EMPTY) else Evaluate(c, After(c, h[..|h| - 1]), h[|h| - 1]).0
  }

  predicate Allowed(c: Config, before: seq<Request>, r: Request) {
    Evaluate(c, After(c, before), r).1
  }

  /** How many requests of the history are by this PAN and were looked up at `from` or later. */
  function Recent(h: seq<Request>, pan: string, from: int): nat {
    if h == [] then 0
    else Recent(h[..|h| - 1], pan, from) + if h[|h| - 1].pan == pan && h[|h| - 1].seen >= from then 1 else 0
  }

  // ---------------------------------------------------------------- declines are justified

  /** What a slot counts really happened, in its window. */
  ghost predicate Honest(h: seq<Request>, t: seq<Slot>) {
    forall i :: 0 <= i < |t| && t[i].pan != "" ==>
      && t[i].count <= Recent(h, t[i].pan, t[i].start)
      && (h != [] ==> t[i].start <= h[|h| - 1].seen)
  }

  lemma RecentOne(h: seq<Request>, r: Request, pan: string, from: int)
    ensures Recent(h + [r], pan, from) == Recent(h, pan, from) + if r.pan == pan && r.seen >= from then 1 else 0
  {
    assert (h + [r])[..|h|] == h;
  }

  /** One evaluation keeps the table honest; the request's own slot holds at least its own count. */
  lemma HonestStep(c: Config, h: seq<Request>, t: seq<Slot>, r: Request)
    requires c.Valid() && c.enabled && t != [] && Honest(h, t)
    requires r.now <= r.seen && (h != [] ==> h[|h| - 1].seen <= r.now)
    requires h == [] ==> forall i :: 0 <= i < |t| ==> t[i].pan == ""
    ensures Honest(h + [r], Evaluate(c, t, r).0)
    ensures r.pan != "" ==>
              var e := Evaluate(c, t, r).0[Get(t, r.pan, r.seen).1];
              e.count <= Recent(h + [r], r.pan, e.start) && r.now - e.start < c.window
    ensures r.pan == "" ==> Evaluate(c, t, r).1
  {
    var (g, k) := Get(t, r.pan, r.seen);
    var u := Evaluate(c, t, r).0;
    forall i | 0 <= i < |u| && u[i].pan != ""
      ensures u[i].count <= Recent(h + [r], u[i].pan, u[i].start) && u[i].start <= r.seen
    {
      RecentOne(h, r, u[i].pan, u[i].start);
      if i != k {
        assert u[i] == t[i];
      }
    }
    assert (h + [r])[|h|] == r;
  }

  lemma {:induction false} HonestAlways(c: Config, h: seq<Request>)
    requires c.Valid() && c.enabled && Timely(h)
    ensures Honest(h, After(c, h))
    ensures h == [] ==> forall i :: 0 <= i < |After(c, h)| ==> After(c, h)[i].pan == ""
  {
    if h != [] {
      var before := h[..|h| - 1];
      HonestAlways(c, before);
      HonestStep(c, before, After(c, before), h[|h| - 1]);
      assert before + [h[|h| - 1]] == h;
    }
  }

  /**
    A decline means more than `limit` requests by that PAN within the last `window` seconds, evictions
    notwithstanding.
   */
  lemma DeclineIsJustified(c: Config, h: seq<Request>, r: Request)
    requires c.Valid() && Timely(h + [r]) && !Allowed(c, h, r)
    ensures Recent(h + [r], r.pan, r.now - c.window + 1) > c.limit
  {
    var hr := h + [r];
    assert hr[|h|] == r && forall i :: 0 <= i < |h| ==> hr[i] == h[i];
    HonestAlways(c, h);
    HonestStep(c, h, After(c, h), r);
    var e := Evaluate(c, After(c, h), r).0[Get(After(c, h), r.pan, r.seen).1];
    RecentMonotone(hr, r.pan, r.now - c.window + 1, e.start);
  }

  lemma RecentMonotone(h: seq<Request>, pan: string, a: int, b: int)
    requires a <= b
    ensures Recent(h, pan, a) >= Recent(h, pan, b)
  {
  }
}
