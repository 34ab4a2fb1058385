/** Rewriting one op in place: when the rewritten code takes one step where the old took one or more,
    nothing that can be seen of any run changes. Shared by passes 2 and 3. */
module Rewrite {
  import opened Simulation
  import opened Machine

  ghost function Same(): (State, State) -> bool { (s, t) => s == t }

  /** Every step of the new code is some positive number of steps of the old. */
  ghost predicate Shortcut(env: Env, new_: Code, old_: Code) {
    forall s: State {:trigger Step(env, new_, s)} :: Follows(env, old_, s, Step(env, new_, s))
  }

  ghost predicate Follows(env: Env, c: Code, s: State, u: State) {
    exists k: nat :: k >= 1 && Run(Stepper(env, c), s, k) == u
  }

  lemma ShortcutSound(env: Env, new_: Code, old_: Code)
    requires Shortcut(env, new_, old_)
    ensures Runs(env, new_) == Runs(env, old_)
  {
    forall s: State, t: State | Same()(s, t)
      ensures Reaches(Stepper(env, new_)(s), Stepper(env, old_), t, Same())
    {
      var u := Step(env, new_, s);
      assert Follows(env, old_, s, u);
      var k: nat :| k >= 1 && Run(Stepper(env, old_), s, k) == u;
      assert Same()(u, Run(Stepper(env, old_), t, k));
    }
    MachineLawful(env, old_);
    MacroStepSound(Stepper(env, new_), Observe(), Stepper(env, old_), Observe(), Same(), Init(), Init());
  }

  lemma OneStep(env: Env, c: Code, s: State)
    ensures Follows(env, c, s, Step(env, c, s))
  {
    assert Run(Stepper(env, c), s, 1) == Step(env, c, Run(Stepper(env, c), s, 0));
  }

  lemma TwoSteps(env: Env, c: Code, s: State)
    ensures Follows(env, c, s, Step(env, c, Step(env, c, s)))
  {
    var u := Step(env, c, s);
    assert Run(Stepper(env, c), s, 1) == Step(env, c, Run(Stepper(env, c), s, 0));
    RunNext(env, c, s, 1, u);
  }

  /** The code with op i replaced. */
  function Put(c: Code, i: nat, op: Op): Code
    requires i < |c.ops|
  {
    c.(ops := c.ops[i := op])
  }

  lemma {:induction false} UnwindPut(c: Code, i: nat, op: Op, m: Store, trace: seq<Event>, loop: int, levels: int)
    requires i < |c.ops| && !IsFree(op) && !IsFree(c.ops[i])
    ensures Unwind(Put(c, i, op), m, trace, loop, levels) == Unwind(c, m, trace, loop, levels)
    decreases levels
  {
    if 0 <= loop < |c.brkCont| && levels > 1 {
      var b := c.brkCont[loop].brk;
      var freed := if b < |c.ops| && IsFree(c.ops[b]) then trace + [RunEvent(m, c.ops[b])] else trace;
      UnwindPut(c, i, op, m, freed, c.brkCont[loop].parent, levels - 1);
    }
  }

  /** Away from the replaced op nothing changes. */
  lemma StepElsewhere(env: Env, c: Code, i: nat, op: Op, s: State)
    requires i < |c.ops| && !IsFree(op) && !IsFree(c.ops[i])
    requires s.done || s.pc != i
    ensures Step(env, Put(c, i, op), s) == Step(env, c, s)
  {
    if !s.done && 0 <= s.pc < |c.ops| {
      var at := c.ops[s.pc];
      if at.Brk? || at.Cont? {
        UnwindPut(c, i, op, s.temps, s.trace, at.loop, Read(env, s, at.levels));
      }
    }
  }

  /** What is left to check of a replacement: the steps of the replaced op. */
  ghost predicate Replaces(env: Env, c: Code, i: nat, op: Op)
    requires i < |c.ops|
  {
    && !IsFree(op) && !IsFree(c.ops[i])
    && forall s: State {:trigger StepOp(env, Put(c, i, op), op, s)} :: !s.done && s.pc == i ==>
         Follows(env, c, s, StepOp(env, Put(c, i, op), op, s))
  }

  lemma PutPreserves(env: Env, c: Code, i: nat, op: Op)
    requires i < |c.ops| && Replaces(env, c, i, op)
    ensures Runs(env, Put(c, i, op)) == Runs(env, c)
  {
    forall s: State ensures Follows(env, c, s, Step(env, Put(c, i, op), s)) {
      if !s.done && s.pc == i {
        assert Step(env, Put(c, i, op), s) == StepOp(env, Put(c, i, op), op, s);
      } else {
        StepElsewhere(env, c, i, op, s);
        OneStep(env, c, s);
      }
    }
    ShortcutSound(env, Put(c, i, op), c);
  }
}
