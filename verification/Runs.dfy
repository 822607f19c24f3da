/** Runs of a transition system: sequences of steps, each enabled in the state it is taken in. */
module Runs {
  datatype System<!S, !E> = System(init: S -> bool, enabled: (S, E) -> bool, apply: (S, E) -> S)

  ghost predicate Legal<S, E>(sys: System<S, E>, s: S, run: seq<E>)
    decreases |run|
  {
    run == [] || (sys.enabled(s, run[0]) && Legal(sys, sys.apply(s, run[0]), run[1..]))
  }

  ghost function After<S, E>(sys: System<S, E>, s: S, run: seq<E>): S
    decreases |run|
  {
    if run == [] then s else After(sys, sys.apply(s, run[0]), run[1..])
  }

  /** A state that some run leads to. */
  ghost predicate Reachable<S(!new), E(!new)>(sys: System<S, E>, s: S) {
    exists s0: S, run: seq<E> :: sys.init(s0) && Legal(sys, s0, run) && After(sys, s0, run) == s
  }

  lemma {:induction false} Extend<S, E>(sys: System<S, E>, s: S, run: seq<E>, step: E)
    requires Legal(sys, s, run) && sys.enabled(After(sys, s, run), step)
    ensures Legal(sys, s, run + [step])
    ensures After(sys, s, run + [step]) == sys.apply(After(sys, s, run), step)
    decreases |run|
  {
    if run == [] {
      assert run + [step] == [step] && [step][1..] == run;
    } else {
      Extend(sys, sys.apply(s, run[0]), run[1..], step);
      assert (run + [step])[1..] == run[1..] + [step];
    }
  }

  lemma {:induction false} Concat<S, E>(sys: System<S, E>, s: S, run: seq<E>, more: seq<E>)
    requires Legal(sys, s, run) && Legal(sys, After(sys, s, run), more)
    ensures Legal(sys, s, run + more)
    ensures After(sys, s, run + more) == After(sys, After(sys, s, run), more)
    decreases |run|
  {
    if run == [] {
      assert run + more == more;
    } else {
      Concat(sys, sys.apply(s, run[0]), run[1..], more);
      assert (run + more)[1..] == run[1..] + more;
    }
  }

  lemma StartReachable<S(!new), E(!new)>(sys: System<S, E>, s: S)
    requires sys.init(s)
    ensures Reachable(sys, s)
  {
    var none: seq<E> := [];
    assert Legal(sys, s, none) && After(sys, s, none) == s;
  }

  lemma StepReachable<S(!new), E(!new)>(sys: System<S, E>, s: S, step: E)
    requires Reachable(sys, s) && sys.enabled(s, step)
    ensures Reachable(sys, sys.apply(s, step))
  {
    var s0: S, run: seq<E> :| sys.init(s0) && Legal(sys, s0, run) && After(sys, s0, run) == s;
    Extend(sys, s0, run, step);
  }

  lemma {:induction false} RunReachable<S(!new), E(!new)>(sys: System<S, E>, s: S, run: seq<E>)
    requires Reachable(sys, s) && Legal(sys, s, run)
    ensures Reachable(sys, After(sys, s, run))
    decreases |run|
  {
    if run != [] {
      StepReachable(sys, s, run[0]);
      RunReachable(sys, sys.apply(s, run[0]), run[1..]);
    }
  }

  /** What every enabled step keeps. */
  ghost predicate Kept<S(!new), E(!new)>(sys: System<S, E>, inv: S -> bool) {
    forall s: S, e: E :: inv(s) && sys.enabled(s, e) ==> inv(sys.apply(s, e))
  }

  lemma {:induction false} KeptByRun<S(!new), E(!new)>(sys: System<S, E>, inv: S -> bool, s: S, run: seq<E>)
    requires Kept(sys, inv) && inv(s) && Legal(sys, s, run)
    ensures inv(After(sys, s, run))
    decreases |run|
  {
    if run != [] {
      KeptByRun(sys, inv, sys.apply(s, run[0]), run[1..]);
    }
  }

  /** An invariant holds in every reachable state. */
  lemma Invariant<S(!new), E(!new)>(sys: System<S, E>, inv: S -> bool, s: S)
    requires forall s0: S :: sys.init(s0) ==> inv(s0)
    requires Kept(sys, inv) && Reachable(sys, s)
    ensures inv(s)
  {
    var s0: S, run: seq<E> :| sys.init(s0) && Legal(sys, s0, run) && After(sys, s0, run) == s;
    KeptByRun(sys, inv, s0, run);
  }
}
