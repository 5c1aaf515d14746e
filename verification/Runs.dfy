/** Runs of a step machine: sequences of steps, each enabled in the state where it is taken. */
module Runs {

  function After<S, T>(apply: (S, T) -> S, s: S, steps: seq<T>): S {
    if steps == [] then s else apply(After(apply, s, steps[..|steps| - 1]), steps[|steps| - 1])
  }

  predicate IsRun<S, T>(apply: (S, T) -> S, enabled: (S, T) -> bool, s: S, steps: seq<T>) {
    steps == [] ||
    (var before := steps[..|steps| - 1];
     IsRun(apply, enabled, s, before) && enabled(After(apply, s, before), steps[|steps| - 1]))
  }

  lemma {:induction false} Extend<S, T>(apply: (S, T) -> S, enabled: (S, T) -> bool, s: S, run: seq<T>, step: T)
    requires IsRun(apply, enabled, s, run) && enabled(After(apply, s, run), step)
    ensures IsRun(apply, enabled, s, run + [step])
    ensures After(apply, s, run + [step]) == apply(After(apply, s, run), step)
  {
    assert (run + [step])[..|run|] == run;
  }

  lemma {:induction false} Concat<S, T>(apply: (S, T) -> S, enabled: (S, T) -> bool, s: S, run: seq<T>, more: seq<T>)
    requires IsRun(apply, enabled, s, run) && IsRun(apply, enabled, After(apply, s, run), more)
    ensures IsRun(apply, enabled, s, run + more)
    ensures After(apply, s, run + more) == After(apply, After(apply, s, run), more)
  {
    if more == [] {
      assert run + more == run;
    } else {
      var init := more[..|more| - 1];
      Concat(apply, enabled, s, run, init);
      Extend(apply, enabled, s, run + init, more[|more| - 1]);
      assert run + more == run + init + [more[|more| - 1]];
    }
  }

  /** What the start satisfies and every enabled step keeps holds after every run. */
  lemma {:induction false} Always<S(!new), T(!new)>(apply: (S, T) -> S, enabled: (S, T) -> bool, inv: S -> bool,
                                                   s: S, steps: seq<T>)
    requires inv(s)
    requires forall x, t :: inv(x) && enabled(x, t) ==> inv(apply(x, t))
    requires IsRun(apply, enabled, s, steps)
    ensures inv(After(apply, s, steps))
  {
    if steps != [] {
      Always(apply, enabled, inv, s, steps[..|steps| - 1]);
    }
  }
}
