/**
  The reversal worker (server/reversal.c): a linked list of aborts to retry, from which the first due task is
  unlinked wherever it stands, and to whose tail unfinished and new tasks are appended.
 */
module Reversal {
  import Runs
  import opened Powers

  /** A task by value; `key` numbers the reversal_enqueue call it came from. */
  datatype Item = Item(key: nat, attempts: nat, nextAt: int)

  /** REVERSAL_MAX_ATTEMPTS and REVERSAL_BASE_DELAY_MS; non-positive settings are replaced by defaults. */
  datatype Settings = Settings(maxAttempts: nat, baseDelayMs: nat) {
    predicate Valid() {
      maxAttempts > 0
    }
  }

  /** The task after one more failed attempt at time `now`. */
  function Postponed(c: Settings, t: Item, now: int): Item {
    Item(t.key, t.attempts + 1, now + c.baseDelayMs * Pow2(t.attempts) / 1000)
  }

  /** Position of the first task due at `now`, or the length. */
  function FirstReady(q: seq<Item>, now: int): (k: nat)
    ensures k <= |q|
    ensures forall j :: 0 <= j < k ==> q[j].nextAt > now
    ensures k < |q| ==> q[k].nextAt <= now
  {
    if q == [] then 0 else if q[0].nextAt <= now then 0 else 1 + FirstReady(q[1..], now)
  }

  function Without(q: seq<Item>, k: nat): seq<Item>
    requires k < |q|
  {
    q[..k] + q[k + 1..]
  }

  // ---------------------------------------------------------------- the linked list

  class Task {
    const key: nat
    var attempts: nat
    var nextAt: int
    var next: Task?

    constructor (key: nat, now: int)
      ensures this.key == key && attempts == 0 && nextAt == now && next == null
    {
      this.key := key;
      attempts, nextAt, next := 0, now, null;
    }
  }

  /** What becomes of a task after an attempt. */
  datatype Fate = Reversed | GivenUp | Requeued

  class TaskList {
    var head: Task?
    ghost var spine: seq<Task>

    ghost predicate Valid()
      reads this, spine
    {
      && (if spine == [] then head == null else head == spine[0] && spine[|spine| - 1].next == null)
      && (forall i :: 0 <= i < |spine| - 1 ==> spine[i].next == spine[i + 1])
      && (forall i, j :: 0 <= i < j < |spine| ==> spine[i] != spine[j])
    }

    ghost function Items(): seq<Item>
      reads this, spine
    {
      seq(|spine|, i requires 0 <= i < |spine| reads this, spine =>
        Item(spine[i].key, spine[i].attempts, spine[i].nextAt))
    }

    constructor ()
      ensures Valid() && spine == []
    {
      head, spine := null, [];
    }

    /** queue_push: walk to the last task and link behind it. */
    method Push(t: Task)
      requires Valid() && t !in spine
      modifies this, t`next, spine`next
      ensures Valid() && spine == old(spine) + [t]
      ensures Items() == old(Items()) + [Item(t.key, t.attempts, t.nextAt)]
    {
      t.next := null;
      if head == null {
        head := t;
      } else {
        var p := head;
        ghost var i := 0;
        while p.next != null
          invariant 0 <= i < |spine| && p == spine[i]
          invariant i + 1 < |spine| ==> p.next == spine[i + 1]
          decreases |spine| - i
          modifies {}
        {
          p := p.next;
          i := i + 1;
        }
        p.next := t;
      }
      spine := spine + [t];
    }

    /** Take `cur`, at position i with predecessor `prev`, out of the list. */
    method Unlink(prev: Task?, cur: Task, ghost i: nat)
      requires Valid() && i < |spine| && cur == spine[i]
      requires if i == 0 then prev == null else prev == spine[i - 1]
      modifies this, spine`next
      ensures Valid() && spine == old(spine)[..i] + old(spine)[i + 1..] && cur.next == null
    {
      if prev != null {
        prev.next := cur.next;
      } else {
        head := cur.next;
      }
      cur.next := null;
      spine := spine[..i] + spine[i + 1..];
    }

    /** queue_pop_ready: unlink the first task that is due. */
    method PopReady(now: int) returns (t: Task?)
      requires Valid()
      modifies this, spine`next
      ensures Valid()
      ensures var k := FirstReady(old(Items()), now);
              if k == |old(spine)| then t == null && spine == old(spine)
              else t == old(spine)[k] && t.next == null && spine == old(spine)[..k] + old(spine)[k + 1..]
    {
      ghost var items := Items();
      var prev: Task?, cur := null, head;
      ghost var i := 0;
      while cur != null
        invariant 0 <= i <= |spine|
        invariant if i < |spine| then cur == spine[i] else cur == null
        invariant if i == 0 then prev == null else prev == spine[i - 1]
        invariant forall j :: 0 <= j < i ==> items[j].nextAt > now
        decreases |spine| - i
        modifies {}
      {
        if cur.nextAt <= now {
          break;
        }
        prev := cur;
        cur := cur.next;
        i := i + 1;
      }
      if cur != null {
        assert items[i].nextAt <= now;
        Unlink(prev, cur, i);
      }
      return cur;
    }

    /** The end of one turn of reversal_loop: a reversal is forgotten, given up, or appended again for later. */
    method AfterAttempt(c: Settings, t: Task, ok: bool, now: int) returns (fate: Fate)
      requires c.Valid() && Valid() && t !in spine
      modifies this, t, spine`next
      ensures Valid()
      ensures fate == if ok then Reversed else if old(t.attempts) + 1 >= c.maxAttempts then GivenUp else Requeued
      ensures Items() == if fate == Requeued
                         then old(Items()) + [Postponed(c, Item(t.key, old(t.attempts), old(t.nextAt)), now)]
                         else old(Items())
      ensures fate == Requeued ==> && t.attempts == old(t.attempts) + 1
                                   && t.nextAt == now + c.baseDelayMs * Pow2(t.attempts - 1) / 1000
    {
      if ok {
        return Reversed;
      }
      t.attempts := t.attempts + 1;
      if t.attempts >= c.maxAttempts {
        return GivenUp;
      }
      var delay := c.baseDelayMs * Pow2(t.attempts - 1);
      t.nextAt := now + delay / 1000;
      Push(t);
      return Requeued;
    }
  }

  // ---------------------------------------------------------------- the worker, other threads included

  datatype Worker = Idle | Trying(item: Item) | Gone

  datatype State = State(
    queue: seq<Item>, worker: Worker, shutdown: bool,
    enqueued: nat,           // reversal_enqueue calls so far; keys are 0 .. enqueued - 1
    succeeded: seq<nat>,     // keys, in order
    failed: seq<nat>,
    tries: seq<nat>)         // attempts made for each key, with or without an abort sent

  datatype Step =
    | Enqueue(now: int)  // reversal_enqueue, by any thread
    | PopDue(now: int)   // the worker unlinks the first due task, or finds none and waits
    | Succeed            // the clearing abort returned 0
    | Fail(now: int)     // it did not: count, then give up or append again
    | Leave              // shutdown and nothing left
    | Shutdown

  const START := State([], Idle, false, 0, [], [], [])

  predicate Enabled(s: State, step: Step) {
    match step
    case Enqueue(_) => true
    case PopDue(_) => s.worker.Idle? && s.queue != []
    case Succeed => s.worker.Trying?
    case Fail(_) => s.worker.Trying?
    case Leave => s.worker.Idle? && s.shutdown && s.queue == []
    case Shutdown => true
  }

  function Tried(s: State, key: nat): seq<nat> {
    if key < |s.tries| then s.tries[key := s.tries[key] + 1] else s.tries
  }

  function Apply(c: Settings, s: State, step: Step): State {
    match step
    case Enqueue(now) =>
      s.(queue := s.queue + [Item(s.enqueued, 0, now)], enqueued := s.enqueued + 1, tries := s.tries + [0])
    case PopDue(now) =>
      var k := FirstReady(s.queue, now);
      if k < |s.queue| then s.(queue := Without(s.queue, k), worker := Trying(s.queue[k])) else s
    case Succeed =>
      if !s.worker.Trying? then s
      else
        var t := s.worker.item;
        s.(worker := Idle, succeeded := s.succeeded + [t.key], tries := Tried(s, t.key))
    case Fail(now) =>
      if !s.worker.Trying? then s
      else
        var t := s.worker.item;
        if t.attempts + 1 >= c.maxAttempts then
          s.(worker := Idle, failed := s.failed + [t.key], tries := Tried(s, t.key))
        else
          s.(worker := Idle, queue := s.queue + [Postponed(c, t, now)], tries := Tried(s, t.key))
    case Leave => s.(worker := Gone)
    case Shutdown => s.(shutdown := true)
  }

  function Keys(q: seq<Item>): seq<nat> {
    seq(|q|, i requires 0 <= i < |q| => q[i].key)
  }

  /** In how many places this task is. */
  function Places(s: State, key: nat): nat {
    multiset(s.succeeded)[key] + multiset(s.failed)[key] + multiset(Keys(s.queue))[key]
    + if s.worker.Trying? && s.worker.item.key == key then 1 else 0
  }

  /** Each task ever enqueued is in exactly one place: succeeded, failed, queued or in hand. */
  ghost predicate Conserved(s: State) {
    forall key: nat :: Places(s, key) == if key < s.enqueued then 1 else 0
  }

  /** The attempt counters count the tries, which stay within the limit. */
  ghost predicate Bounded(c: Settings, s: State) {
    && |s.tries| == s.enqueued
    && (forall i :: 0 <= i < |s.queue| ==>
          var t := s.queue[i]; t.key < |s.tries| && s.tries[t.key] == t.attempts < c.maxAttempts)
    && (s.worker.Trying? ==>
          var t := s.worker.item; t.key < |s.tries| && s.tries[t.key] == t.attempts < c.maxAttempts)
    && (forall i :: 0 <= i < |s.failed| ==> s.failed[i] < |s.tries| && s.tries[s.failed[i]] == c.maxAttempts)
    && (forall i :: 0 <= i < |s.succeeded| ==>
          s.succeeded[i] < |s.tries| && 1 <= s.tries[s.succeeded[i]] <= c.maxAttempts)
  }

  lemma KeysWithout(q: seq<Item>, k: nat, key: nat)
    requires k < |q|
    ensures multiset(Keys(Without(q, k)))[key] + (if q[k].key == key then 1 else 0) == multiset(Keys(q))[key]
  {
    var ks := Keys(q);
    assert Keys(Without(q, k)) == ks[..k] + ks[k + 1..];
    assert ks == ks[..k] + [ks[k]] + ks[k + 1..];
  }

  lemma KeysAppend(q: seq<Item>, t: Item)
    ensures Keys(q + [t]) == Keys(q) + [t.key]
  {
  }

  lemma AppendCounts(ks: seq<nat>, k: nat, key: nat)
    ensures multiset(ks + [k])[key] == multiset(ks)[key] + if k == key then 1 else 0
  {
  }

  /** A task that leaves the worker's hand is in one other place. */
  lemma PlacesDone(c: Settings, s: State, step: Step, key: nat)
    requires s.worker.Trying? && (step.Succeed? || step.Fail?)
    ensures Places(Apply(c, s, step), key) == Places(s, key)
  {
    var t := s.worker.item;
    if step.Succeed? {
      AppendCounts(s.succeeded, t.key, key);
    } else if t.attempts + 1 >= c.maxAttempts {
      AppendCounts(s.failed, t.key, key);
    } else {
      KeysAppend(s.queue, Postponed(c, t, step.now));
      AppendCounts(Keys(s.queue), t.key, key);
    }
  }

  lemma PlacesStep(c: Settings, s: State, step: Step, key: nat)
    requires Enabled(s, step)
    ensures Places(Apply(c, s, step), key) == Places(s, key) + if step.Enqueue? && key == s.enqueued then 1 else 0
  {
    match step
    case Enqueue(now) =>
      KeysAppend(s.queue, Item(s.enqueued, 0, now));
      AppendCounts(Keys(s.queue), s.enqueued, key);
    case PopDue(now) =>
      var k := FirstReady(s.queue, now);
      if k < |s.queue| {
        KeysWithout(s.queue, k, key);
      }
    case Succeed => PlacesDone(c, s, step, key);
    case Fail(_) => PlacesDone(c, s, step, key);
    case _ =>
  }

  lemma ConservedStep(c: Settings, s: State, step: Step)
    requires Conserved(s) && Enabled(s, step)
    ensures Conserved(Apply(c, s, step))
  {
    forall key: nat
      ensures Places(Apply(c, s, step), key) == if key < Apply(c, s, step).enqueued then 1 else 0
    {
      PlacesStep(c, s, step, key);
    }
  }

  /** Two different places hold different keys. */
  lemma HandIsElsewhere(s: State)
    requires Conserved(s) && s.worker.Trying?
    ensures var key := s.worker.item.key;
            key !in Keys(s.queue) && key !in s.failed && key !in s.succeeded && key < s.enqueued
  {
    assert Places(s, s.worker.item.key) == if s.worker.item.key < s.enqueued then 1 else 0;
  }

  /** Counting one more try of what is in hand leaves the other counters alone. */
  lemma BoundedTry(c: Settings, s: State, step: Step)
    requires c.Valid() && Conserved(s) && Bounded(c, s) && s.worker.Trying? && (step.Succeed? || step.Fail?)
    ensures Bounded(c, Apply(c, s, step))
  {
    HandIsElsewhere(s);
    var key := s.worker.item.key;
    assert forall i :: 0 <= i < |s.queue| ==> Keys(s.queue)[i] == s.queue[i].key;
    assert forall i :: 0 <= i < |s.queue| ==> s.queue[i].key != key;
    assert forall i :: 0 <= i < |s.failed| ==> s.failed[i] != key;
    assert forall i :: 0 <= i < |s.succeeded| ==> s.succeeded[i] != key;
  }

  lemma BoundedStep(c: Settings, s: State, step: Step)
    requires c.Valid() && Conserved(s) && Bounded(c, s) && Enabled(s, step)
    ensures Bounded(c, Apply(c, s, step))
  {
    if step.Succeed? || step.Fail? {
      BoundedTry(c, s, step);
    } else if step.PopDue? {
      var s' := Apply(c, s, step);
      var k := FirstReady(s.queue, step.now);
      assert k < |s.queue| ==> forall i :: 0 <= i < |s'.queue| ==> s'.queue[i] == s.queue[if i < k then i else i + 1];
    }
  }

  ghost predicate Inv(c: Settings, s: State) {
    Conserved(s) && Bounded(c, s)
  }

  function After(c: Settings, steps: seq<Step>): State {
    Runs.After((s: State, step: Step) => Apply(c, s, step), START, steps)
  }

  predicate IsRun(c: Settings, steps: seq<Step>) {
    Runs.IsRun((s: State, step: Step) => Apply(c, s, step), Enabled, START, steps)
  }

  lemma InvAlways(c: Settings, steps: seq<Step>)
    requires c.Valid() && IsRun(c, steps)
    ensures Inv(c, After(c, steps))
  {
    forall s, step | Inv(c, s) && Enabled(s, step)
      ensures Inv(c, Apply(c, s, step))
    {
      ConservedStep(c, s, step);
      BoundedStep(c, s, step);
    }
    Runs.Always((s: State, step: Step) => Apply(c, s, step), Enabled, (s: State) => Inv(c, s), START, steps);
  }

  /**
    In every reachable state no task is lost or doubled, none is tried more than maxAttempts times, and a task is
    given up only after exactly that many tries.
   */
  lemma NothingLost(c: Settings, steps: seq<Step>)
    requires c.Valid() && IsRun(c, steps)
    ensures var s := After(c, steps);
            && (forall key: nat :: Places(s, key) == if key < s.enqueued then 1 else 0)
            && s.enqueued == |s.succeeded| + |s.failed| + |s.queue| + (if s.worker.Trying? then 1 else 0)
            && |s.tries| == s.enqueued
            && (forall key :: 0 <= key < s.enqueued ==> s.tries[key] <= c.maxAttempts)
            && (forall key :: key in s.failed ==> key < s.enqueued && s.tries[key] == c.maxAttempts)
  {
    InvAlways(c, steps);
    var s := After(c, steps);
    CountAlways(c, steps);
    forall key | 0 <= key < s.enqueued ensures s.tries[key] <= c.maxAttempts {
      assert Places(s, key) == 1;
      if key in Keys(s.queue) {
        var i :| 0 <= i < |s.queue| && Keys(s.queue)[i] == key;
      }
    }
  }

  lemma CountAlways(c: Settings, steps: seq<Step>)
    requires c.Valid() && IsRun(c, steps)
    ensures var s := After(c, steps);
            s.enqueued == |s.succeeded| + |s.failed| + |s.queue| + if s.worker.Trying? then 1 else 0
  {
    Runs.Always((s: State, step: Step) => Apply(c, s, step), Enabled,
                (s: State) => s.enqueued == |s.succeeded| + |s.failed| + |s.queue| + if s.worker.Trying? then 1 else 0,
                START, steps);
  }

  // ---------------------------------------------------------------- the drain ends

  /** Worker steps still possible for a waiting task. */
  function Left(c: Settings, t: Item): nat {
    if t.attempts < c.maxAttempts then 2 * (c.maxAttempts - t.attempts) else 0
  }

  function LeftAll(c: Settings, q: seq<Item>): nat {
    if q == [] then 0 else Left(c, q[0]) + LeftAll(c, q[1..])
  }

  function Remaining(c: Settings, s: State): int {
    LeftAll(c, s.queue) + if s.worker.Trying? then Left(c, s.worker.item) - 1 else 0
  }

  lemma {:induction false} LeftAllConcat(c: Settings, a: seq<Item>, b: seq<Item>)
    ensures LeftAll(c, a + b) == LeftAll(c, a) + LeftAll(c, b)
  {
    if a == [] {
      assert a + b == b;
    } else {
      assert (a + b)[1..] == a[1..] + b;
      LeftAllConcat(c, a[1..], b);
    }
  }

  lemma LeftAllWithout(c: Settings, q: seq<Item>, k: nat)
    requires k < |q|
    ensures LeftAll(c, Without(q, k)) + Left(c, q[k]) == LeftAll(c, q)
  {
    LeftAllConcat(c, q[..k], q[k + 1..]);
    assert q[k..][1..] == q[k + 1..];
    LeftAllConcat(c, q[..k], q[k..]);
    assert q == q[..k] + q[k..];
  }

  /** The step does something for a task: it takes a due one, or settles the one in hand. */
  predicate Works(s: State, step: Step) {
    match step
    case PopDue(now) => FirstReady(s.queue, now) < |s.queue|
    case Succeed => true
    case Fail(_) => true
    case _ => false
  }

  /** Every working step of the worker uses up some of the remaining work; with none left it can leave. */
  lemma DrainStep(c: Settings, s: State, step: Step)
    requires c.Valid() && Inv(c, s) && Enabled(s, step) && Works(s, step)
    ensures 0 <= Remaining(c, Apply(c, s, step)) < Remaining(c, s)
  {
    match step
    case PopDue(now) =>
      LeftAllWithout(c, s.queue, FirstReady(s.queue, now));
    case Fail(now) =>
      LeftAllConcat(c, s.queue, [Postponed(c, s.worker.item, now)]);
      assert [Postponed(c, s.worker.item, now)][1..] == [];
    case _ =>
  }

  /** Working and idle turns of the worker after shutdown, with no new tasks. */
  predicate WorkerStep(step: Step) {
    step.PopDue? || step.Succeed? || step.Fail?
  }

  function WorkDone(c: Settings, s: State, steps: seq<Step>): nat
    decreases |steps|
  {
    if steps == [] then 0
    else (if Works(s, steps[0]) then 1 else 0) + WorkDone(c, Apply(c, s, steps[0]), steps[1..])
  }

  function Continue(c: Settings, s: State, steps: seq<Step>): State
    decreases |steps|
  {
    if steps == [] then s else Continue(c, Apply(c, s, steps[0]), steps[1..])
  }

  predicate CanContinue(s: State, c: Settings, steps: seq<Step>)
    decreases |steps|
  {
    steps == [] || (WorkerStep(steps[0]) && Enabled(s, steps[0]) && CanContinue(Apply(c, s, steps[0]), c, steps[1..]))
  }

  /**
    Without new tasks the worker's working turns are bounded, and whenever it is between turns it can leave or,
    once the waiting tasks are due, do more work: so the drain ends with an empty queue.
   */
  lemma {:induction false} DrainEnds(c: Settings, s: State, steps: seq<Step>)
    requires c.Valid() && Inv(c, s) && CanContinue(s, c, steps)
    ensures var t := Continue(c, s, steps);
            && WorkDone(c, s, steps) + Remaining(c, t) <= Remaining(c, s)
            && Remaining(c, t) >= 0
            && (t.worker.Idle? && t.queue != [] ==> Works(t, PopDue(t.queue[0].nextAt)))
            && (t.worker.Idle? && t.queue == [] && t.shutdown ==> Enabled(t, Leave))
    decreases |steps|
  {
    if steps == [] {
      if s.worker.Idle? && s.queue != [] {
        assert FirstReady(s.queue, s.queue[0].nextAt) == 0;
      }
    } else {
      var s' := Apply(c, s, steps[0]);
      ConservedStep(c, s, steps[0]);
      BoundedStep(c, s, steps[0]);
      if Works(s, steps[0]) {
        DrainStep(c, s, steps[0]);
      } else {
        assert s' == s;
      }
      DrainEnds(c, s', steps[1..]);
    }
  }

  /** From every state in which the worker has not left, it can finish off everything and leave. */
  lemma {:induction false} CanDrain(c: Settings, s: State) returns (steps: seq<Step>)
    requires c.Valid() && Inv(c, s) && !s.worker.Gone? && s.shutdown
    ensures CanContinue(s, c, steps)
    ensures var t := Continue(c, s, steps); t.queue == [] && Enabled(t, Leave)
    decreases if Remaining(c, s) < 0 then 0 else Remaining(c, s)
  {
    if s.worker.Idle? && s.queue == [] {
      return [];
    }
    var step := if s.worker.Idle? then PopDue(s.queue[0].nextAt) else Succeed;
    assert s.worker.Idle? ==> FirstReady(s.queue, s.queue[0].nextAt) == 0;
    DrainStep(c, s, step);
    ConservedStep(c, s, step);
    BoundedStep(c, s, step);
    var rest := CanDrain(c, Apply(c, s, step));
    steps := [step] + rest;
    assert steps[1..] == rest;
  }

  function Enqueues(steps: seq<Step>): nat {
    if steps == [] then 0 else Enqueues(steps[..|steps| - 1]) + if steps[|steps| - 1].Enqueue? then 1 else 0
  }

  /** What the last free-loop of reversal_shutdown drops: exactly the tasks enqueued after the worker left. */
  lemma {:induction false} WhatShutdownDrops(c: Settings, steps: seq<Step>, later: seq<Step>)
    requires c.Valid() && IsRun(c, steps + [Leave] + later)
    ensures var s := After(c, steps + [Leave] + later);
            && s.worker.Gone? && |s.queue| == Enqueues(later)
            && s.enqueued == |s.succeeded| + |s.failed| + Enqueues(later)
    decreases |later|
  {
    var run := steps + [Leave] + later;
    if later == [] {
      assert run == steps + [Leave] && run[..|run| - 1] == steps;
    } else {
      var init := later[..|later| - 1];
      assert run[..|run| - 1] == steps + [Leave] + init && run[|run| - 1] == later[|later| - 1];
      WhatShutdownDrops(c, steps, init);
    }
    CountAlways(c, run);
  }

  // ---------------------------------------------------------------- backoff

  /** After its n-th failure a task waits baseDelayMs * 2^(n - 1) milliseconds, in whole seconds. */
  lemma DelayDoubles(c: Settings, t: Item, now: int)
    ensures var p := Postponed(c, t, now);
            && p.key == t.key && p.attempts == t.attempts + 1
            && p.nextAt - now == c.baseDelayMs * Pow2(p.attempts - 1) / 1000
            && (t.attempts > 0 ==> c.baseDelayMs * Pow2(p.attempts - 1) == 2 * (c.baseDelayMs * Pow2(t.attempts - 1)))
  {
  }

  function RunOn(c: Settings, s: State, steps: seq<Step>): State
    decreases |steps|
  {
    if steps == [] then s else RunOn(c, Apply(c, s, steps[0]), steps[1..])
  }

  /** A task is not taken in hand before it is due: until then it stays in the queue. */
  lemma {:induction false} NotBeforeDue(c: Settings, s: State, p: nat, steps: seq<Step>)
    requires Conserved(s) && p < |s.queue| && CanRun(c, s, steps)
    requires forall step :: step in steps && step.PopDue? ==> step.now < s.queue[p].nextAt
    ensures var t := RunOn(c, s, steps);
            && s.queue[p] in t.queue
            && (t.worker.Trying? ==> t.worker.item.key != s.queue[p].key)
    decreases |steps|
  {
    if steps == [] {
      if s.worker.Trying? {
        HandIsElsewhere(s);
        assert Keys(s.queue)[p] == s.queue[p].key;
      }
    } else {
      var s' := Apply(c, s, steps[0]);
      assert steps[0] in steps && forall step :: step in steps[1..] ==> step in steps;
      ConservedStep(c, s, steps[0]);
      var k := if steps[0].PopDue? then FirstReady(s.queue, steps[0].now) else |s.queue|;
      assert k != p;
      var p' := if k < p then p - 1 else p;
      assert s'.queue[p'] == s.queue[p];
      NotBeforeDue(c, s', p', steps[1..]);
    }
  }

  // ---------------------------------------------------------------- fairness of the worker

  predicate CanRun(c: Settings, s: State, steps: seq<Step>)
    decreases |steps|
  {
    steps == [] || (Enabled(s, steps[0]) && CanRun(c, Apply(c, s, steps[0]), steps[1..]))
  }

  function PopCount(steps: seq<Step>): nat {
    if steps == [] then 0 else (if steps[0].PopDue? then 1 else 0) + PopCount(steps[1..])
  }

  /** At some point of the steps the worker takes this task in hand. */
  predicate Taken(c: Settings, s: State, steps: seq<Step>, item: Item)
    decreases |steps|
  {
    s.worker == Trying(item) || (steps != [] && Taken(c, Apply(c, s, steps[0]), steps[1..], item))
  }

  /**
    Whatever other threads enqueue and whatever fails and comes back, a due task at position p is taken in hand by the
    (p + 1)-th pop; keys being unique, it is that very task.
   */
  lemma {:induction false} ServedInTurn(c: Settings, s: State, p: nat, steps: seq<Step>)
    requires Conserved(s) && p < |s.queue| && CanRun(c, s, steps) && PopCount(steps) >= p + 1
    requires forall step :: step in steps && step.PopDue? ==> s.queue[p].nextAt <= step.now
    ensures Taken(c, s, steps, s.queue[p])
    ensures forall i :: 0 <= i < |s.queue| && i != p ==> s.queue[i].key != s.queue[p].key
    decreases |steps|
  {
    KeysAreUnique(s, p);
    var s' := Apply(c, s, steps[0]);
    assert steps[0] in steps && forall step :: step in steps[1..] ==> step in steps;
    ConservedStep(c, s, steps[0]);
    if steps[0].PopDue? {
      var k := FirstReady(s.queue, steps[0].now);
      assert k <= p;
      if k < p {
        assert s'.queue[p - 1] == s.queue[p];
        ServedInTurn(c, s', p - 1, steps[1..]);
      } else {
        assert s'.worker == Trying(s.queue[p]);
      }
    } else {
      assert s'.queue[p] == s.queue[p];
      ServedInTurn(c, s', p, steps[1..]);
    }
  }

  /** A new task is due at once: it is taken in hand after those queued before it, by pops from then on. */
  lemma NewTaskIsServed(c: Settings, s: State, now: int, steps: seq<Step>)
    requires c.Valid() && Conserved(s)
    requires var s' := Apply(c, s, Enqueue(now)); CanRun(c, s', steps) && PopCount(steps) >= |s'.queue|
    requires forall step :: step in steps && step.PopDue? ==> now <= step.now
    ensures Taken(c, Apply(c, s, Enqueue(now)), steps, Item(s.enqueued, 0, now))
  {
    ConservedStep(c, s, Enqueue(now));
    ServedInTurn(c, Apply(c, s, Enqueue(now)), |s.queue|, steps);
  }

  lemma KeysAreUnique(s: State, p: nat)
    requires Conserved(s) && p < |s.queue|
    ensures forall i :: 0 <= i < |s.queue| && i != p ==> s.queue[i].key != s.queue[p].key
  {
    var ks, key := Keys(s.queue), s.queue[p].key;
    assert Places(s, key) <= 1;
    forall i | 0 <= i < |s.queue| && i != p ensures s.queue[i].key != key {
      if ks[i] == key {
        TwiceIsTwo(ks, if i < p then i else p, if i < p then p else i);
      }
    }
  }

  lemma TwiceIsTwo(ks: seq<nat>, i: nat, j: nat)
    requires i < j < |ks| && ks[i] == ks[j]
    ensures multiset(ks)[ks[i]] >= 2
  {
    assert ks == ks[..i] + [ks[i]] + ks[i + 1..j] + [ks[j]] + ks[j + 1..];
  }

  // ---------------------------------------------------------------- the critical sections on the linked list

  /** The list holds the machine's queue. */
  ghost predicate Mirrors(list: TaskList, s: State)
    reads list, list.spine
  {
    list.Valid() && list.Items() == s.queue
  }

  /** The task the machine's worker has in hand. */
  ghost predicate InHand(t: Task, s: State)
    reads t
  {
    s.worker == Trying(Item(t.key, t.attempts, t.nextAt))
  }

  /** reversal_enqueue is an Enqueue step. */
  method EnqueueSection(list: TaskList, ghost c: Settings, ghost s: State, key: nat, now: int)
    requires Mirrors(list, s) && key == s.enqueued
    modifies list, list.spine`next
    ensures Mirrors(list, Apply(c, s, Enqueue(now)))
  {
    var t := new Task(key, now);
    list.Push(t);
  }

  /** The worker's first critical section is a PopDue step. */
  method PopSection(list: TaskList, ghost c: Settings, ghost s: State, now: int) returns (t: Task?)
    requires Mirrors(list, s)
    modifies list, list.spine`next
    ensures Mirrors(list, Apply(c, s, PopDue(now)))
    ensures t != null ==> InHand(t, Apply(c, s, PopDue(now))) && t !in list.spine
    ensures t == null ==> Apply(c, s, PopDue(now)) == s
  {
    ghost var was := list.spine;
    t := list.PopReady(now);
    ghost var k := FirstReady(s.queue, now);
    if t != null {
      assert list.Items() == Without(s.queue, k);
      assert s.queue[k] == Item(t.key, t.attempts, t.nextAt);
      assert t == was[k] && t !in was[..k] && t !in was[k + 1..];
    } else {
      assert list.Items() == s.queue;
    }
  }

  /** What follows an attempt is a Succeed or a Fail step. */
  method AttemptSection(list: TaskList, c: Settings, ghost s: State, t: Task, ok: bool, now: int) returns (fate: Fate)
    requires c.Valid() && Mirrors(list, s) && InHand(t, s) && t !in list.spine
    modifies list, t, list.spine`next
    ensures Mirrors(list, Apply(c, s, if ok then Succeed else Fail(now)))
    ensures var after := Apply(c, s, if ok then Succeed else Fail(now));
            && after.succeeded == (if fate == Reversed then s.succeeded + [t.key] else s.succeeded)
            && after.failed == if fate == GivenUp then s.failed + [t.key] else s.failed
  {
    fate := list.AfterAttempt(c, t, ok, now);
  }
}
