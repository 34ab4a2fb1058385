/** Transition systems, what an observer can see of a run, and the one simulation
    argument that every optimizer pass is proved with. */
module Simulation {

  /** Everything visible so far, and whether the run has ended. */
  datatype Obs<E> = Obs(trace: seq<E>, done: bool) {
    /** A finished run is seen exactly; an unfinished one may still grow. */
    ghost predicate Leq(that: Obs<E>) {
      if done then this == that else trace <= that.trace
    }
  }

  ghost function Run<S>(step: S -> S, s: S, n: nat): S {
    if n == 0 then s else step(Run(step, s, n - 1))
  }

  ghost predicate Seen<S, E>(step: S -> S, obs: S -> Obs<E>, s: S, o: Obs<E>) {
    exists n: nat :: o.Leq(obs(Run(step, s, n)))
  }

  /** All that can ever be seen of the run from s. Two systems with equal behaviour produce the
      same events in the same order, and one terminates exactly when the other does. */
  ghost function Behaviour<S, E(!new)>(step: S -> S, obs: S -> Obs<E>, s: S): iset<Obs<E>> {
    iset o: Obs<E> | Seen(step, obs, s, o)
  }

  /** Events are never withdrawn, and a finished run stays put. */
  ghost predicate Lawful<S(!new), E>(step: S -> S, obs: S -> Obs<E>) {
    forall s :: obs(s).trace <= obs(step(s)).trace && (obs(s).done ==> step(s) == s)
  }

  /** Some positive number of old steps from t leads to a state related to s. */
  ghost predicate Reaches<S, T>(s: S, stepO: T -> T, t: T, R: (S, T) -> bool) {
    exists k: nat :: k >= 1 && R(s, Run(stepO, t, k))
  }

  /** R(s, t) relates a new and an old state; one new step is some positive number of old steps. */
  ghost predicate MacroStep<S(!new), T(!new), E>(stepN: S -> S, obsN: S -> Obs<E>,
                                                 stepO: T -> T, obsO: T -> Obs<E>, R: (S, T) -> bool) {
    && (forall s, t {:trigger R(s, t)} :: R(s, t) ==> obsN(s) == obsO(t))
    && (forall s, t {:trigger Reaches(stepN(s), stepO, t, R)} :: R(s, t) ==> Reaches(stepN(s), stepO, t, R))
  }

  lemma {:induction false} RunAdd<S>(step: S -> S, s: S, m: nat, n: nat)
    ensures Run(step, s, m + n) == Run(step, Run(step, s, m), n)
    decreases n
  {
    if n > 0 {
      RunAdd(step, s, m, n - 1);
    }
  }

  lemma {:induction false} RunGrows<S(!new), E>(step: S -> S, obs: S -> Obs<E>, s: S, n: nat)
    requires Lawful(step, obs)
    ensures obs(s).trace <= obs(Run(step, s, n)).trace
    ensures obs(s).done ==> Run(step, s, n) == s
    decreases n
  {
    if n > 0 {
      RunGrows(step, obs, s, n - 1);
    }
  }

  /** n new steps are matched by at least n old steps. */
  lemma {:induction false} MacroRun<S(!new), T(!new), E>(stepN: S -> S, obsN: S -> Obs<E>,
      stepO: T -> T, obsO: T -> Obs<E>, R: (S, T) -> bool, s: S, t: T, n: nat) returns (k: nat)
    requires MacroStep(stepN, obsN, stepO, obsO, R) && R(s, t)
    ensures k >= n && R(Run(stepN, s, n), Run(stepO, t, k))
    decreases n
  {
    if n == 0 {
      k := 0;
    } else {
      var m := MacroRun(stepN, obsN, stepO, obsO, R, s, t, n - 1);
      var s', t' := Run(stepN, s, n - 1), Run(stepO, t, m);
      assert Reaches(stepN(s'), stepO, t', R);
      var j: nat :| j >= 1 && R(stepN(s'), Run(stepO, t', j));
      RunAdd(stepO, t, m, j);
      k := m + j;
    }
  }

  /** The simulation theorem: related states have equal behaviour, in both directions. */
  lemma MacroStepSound<S(!new), T(!new), E(!new)>(stepN: S -> S, obsN: S -> Obs<E>,
      stepO: T -> T, obsO: T -> Obs<E>, R: (S, T) -> bool, s: S, t: T)
    requires MacroStep(stepN, obsN, stepO, obsO, R) && Lawful(stepO, obsO) && R(s, t)
    ensures Behaviour(stepN, obsN, s) == Behaviour(stepO, obsO, t)
  {
    forall o: Obs<E> | o in Behaviour(stepN, obsN, s)
      ensures o in Behaviour(stepO, obsO, t)
    {
      var n: nat :| o.Leq(obsN(Run(stepN, s, n)));
      var k := MacroRun(stepN, obsN, stepO, obsO, R, s, t, n);
    }
    forall o: Obs<E> | o in Behaviour(stepO, obsO, t)
      ensures o in Behaviour(stepN, obsN, s)
    {
      var n: nat :| o.Leq(obsO(Run(stepO, t, n)));
      var k := MacroRun(stepN, obsN, stepO, obsO, R, s, t, n);
      RunAdd(stepO, t, n, k - n);
      RunGrows(stepO, obsO, Run(stepO, t, n), k - n);
      assert o.Leq(obsN(Run(stepN, s, n)));
    }
  }

  /** A run ends in one way only. */
  lemma EndsOnce<S(!new), E(!new)>(step: S -> S, obs: S -> Obs<E>, s: S, n: nat, o: Obs<E>)
    requires Lawful(step, obs) && obs(Run(step, s, n)).done && o.done && Seen(step, obs, s, o)
    ensures o == obs(Run(step, s, n))
  {
    var m: nat :| o.Leq(obs(Run(step, s, m)));
    if m <= n {
      RunAdd(step, s, m, n - m);
      RunGrows(step, obs, Run(step, s, m), n - m);
    } else {
      RunAdd(step, s, n, m - n);
      RunGrows(step, obs, Run(step, s, n), m - n);
    }
  }

  /** One step more or less at the start shows the same. */
  lemma StepBehaviour<S(!new), E(!new)>(step: S -> S, obs: S -> Obs<E>, s: S)
    requires Lawful(step, obs)
    ensures Behaviour(step, obs, step(s)) == Behaviour(step, obs, s)
  {
    forall o: Obs<E> | o in Behaviour(step, obs, step(s)) ensures o in Behaviour(step, obs, s) {
      var n: nat :| o.Leq(obs(Run(step, step(s), n)));
      RunAdd(step, s, 1, n);
      assert Run(step, s, 1) == step(Run(step, s, 0));
      assert o.Leq(obs(Run(step, s, 1 + n)));
    }
    forall o: Obs<E> | o in Behaviour(step, obs, s) ensures o in Behaviour(step, obs, step(s)) {
      var n: nat :| o.Leq(obs(Run(step, s, n)));
      RunAdd(step, s, 1, n);
      assert Run(step, s, 1) == step(Run(step, s, 0));
      RunAdd(step, s, n, 1);
      RunGrows(step, obs, Run(step, s, n), 1);
      assert o.Leq(obs(Run(step, step(s), n)));
    }
  }

  /** What is seen of a run that ends with its first step. */
  lemma DoneAtOnce<S(!new), E(!new)>(step: S -> S, obs: S -> Obs<E>, s: S, o: Obs<E>)
    requires Lawful(step, obs) && obs(step(s)).done
    ensures o in Behaviour(step, obs, s) <==> o.Leq(obs(s)) || o.Leq(obs(step(s)))
  {
    assert Run(step, s, 0) == s;
    assert Run(step, s, 1) == step(Run(step, s, 0));
    if n: nat :| o.Leq(obs(Run(step, s, n))) {
      if n > 0 {
        RunAdd(step, s, 1, n - 1);
        RunGrows(step, obs, step(s), n - 1);
      }
    }
    if o.Leq(obs(s)) {
      assert o.Leq(obs(Run(step, s, 0)));
    }
    if o.Leq(obs(step(s))) {
      assert o.Leq(obs(Run(step, s, 1)));
    }
  }

  /** Some positive number of steps on either side leads from a related pair to a related pair. */
  ghost predicate PairReaches<S, T>(stepN: S -> S, s: S, stepO: T -> T, t: T, R: (S, T) -> bool) {
    exists m: nat, k: nat :: m >= 1 && k >= 1 && R(Run(stepN, s, m), Run(stepO, t, k))
  }

  /** Either side may take steps that the other one does not have, as long as both go on. */
  ghost predicate PairStep<S(!new), T(!new), E>(stepN: S -> S, obsN: S -> Obs<E>,
                                                stepO: T -> T, obsO: T -> Obs<E>, R: (S, T) -> bool) {
    && (forall s, t {:trigger R(s, t)} :: R(s, t) ==> obsN(s) == obsO(t))
    && (forall s, t {:trigger PairReaches(stepN, s, stepO, t, R)} :: R(s, t) ==> PairReaches(stepN, s, stepO, t, R))
  }

  lemma {:induction false} PairRun<S(!new), T(!new), E>(stepN: S -> S, obsN: S -> Obs<E>, stepO: T -> T,
          obsO: T -> Obs<E>,
      R: (S, T) -> bool, s: S, t: T, n: nat) returns (m: nat, k: nat)
    requires PairStep(stepN, obsN, stepO, obsO, R) && R(s, t)
    ensures m >= n && k >= n && R(Run(stepN, s, m), Run(stepO, t, k))
    decreases n
  {
    if n == 0 {
      m, k := 0, 0;
    } else {
      var m0, k0 := PairRun(stepN, obsN, stepO, obsO, R, s, t, n - 1);
      var s', t' := Run(stepN, s, m0), Run(stepO, t, k0);
      assert PairReaches(stepN, s', stepO, t', R);
      var i: nat, j: nat :| i >= 1 && j >= 1 && R(Run(stepN, s', i), Run(stepO, t', j));
      RunAdd(stepN, s, m0, i);
      RunAdd(stepO, t, k0, j);
      m, k := m0 + i, k0 + j;
    }
  }

  /** What is seen early on is still seen later. */
  lemma SeenLater<S(!new), E(!new)>(step: S -> S, obs: S -> Obs<E>, s: S, n: nat, m: nat, o: Obs<E>)
    requires Lawful(step, obs) && n <= m && o.Leq(obs(Run(step, s, n)))
    ensures o.Leq(obs(Run(step, s, m)))
  {
    RunAdd(step, s, n, m - n);
    RunGrows(step, obs, Run(step, s, n), m - n);
  }

  lemma PairStepSound<S(!new), T(!new), E(!new)>(stepN: S -> S, obsN: S -> Obs<E>,
      stepO: T -> T, obsO: T -> Obs<E>, R: (S, T) -> bool, s: S, t: T)
    requires PairStep(stepN, obsN, stepO, obsO, R) && Lawful(stepN, obsN) && Lawful(stepO, obsO) && R(s, t)
    ensures Behaviour(stepN, obsN, s) == Behaviour(stepO, obsO, t)
  {
    forall o: Obs<E> | o in Behaviour(stepN, obsN, s)
      ensures o in Behaviour(stepO, obsO, t)
    {
      var n: nat :| o.Leq(obsN(Run(stepN, s, n)));
      var m, k := PairRun(stepN, obsN, stepO, obsO, R, s, t, n);
      SeenLater(stepN, obsN, s, n, m, o);
      assert o.Leq(obsO(Run(stepO, t, k)));
    }
    forall o: Obs<E> | o in Behaviour(stepO, obsO, t)
      ensures o in Behaviour(stepN, obsN, s)
    {
      var n: nat :| o.Leq(obsO(Run(stepO, t, n)));
      var m, k := PairRun(stepN, obsN, stepO, obsO, R, s, t, n);
      SeenLater(stepO, obsO, t, n, k, o);
      assert o.Leq(obsN(Run(stepN, s, m)));
    }
  }
}
