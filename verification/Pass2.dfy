/** Pass 2: branches on constants, JMPZ over JMP fused into JMPZNZ, and BRK/CONT resolved to JMP. */
module Pass2 {
  import opened Options
  import opened Simulation
  import opened Machine
  import opened OpArrays
  import opened Rewrite

  /** The loop that an n-level break out of loop ends at, if there is one and no loop left on the way
      has a variable to free at its break point. */
  function Resolve(c: Code, loop: int, n: int): (r: Option<nat>)
    ensures r.Some? ==> r.value < |c.brkCont|
    decreases n
  {
    if !(0 <= loop < |c.brkCont|) then None
    else if n <= 1 then Some(loop)
    else if c.brkCont[loop].brk < |c.ops| && IsFree(c.ops[c.brkCont[loop].brk]) then None
    else Resolve(c, c.brkCont[loop].parent, n - 1)
  }

  /** The op that op i of c becomes. */
  function Better(c: Code, i: nat): Op
    requires i < |c.ops|
  {
    var op := c.ops[i];
    match op
    case CondJmpEx(nz, Const(v), _, r) => if Truthy(v) != nz then QmAssign(Const(v), r) else op
    case CondJmp(nz, Const(v), t) => if Truthy(v) == nz then Jmp(t) else Nop
    case CondJmp(nz, x, t) =>
      if i + 1 < |c.ops| && c.ops[i + 1].Jmp? then
        var u := c.ops[i + 1].target;
        if t == u then Nop else if nz then JmpZnz(x, u, t) else JmpZnz(x, t, u)
      else op
    case JmpZnz(Const(v), z, n) => Jmp(if Truthy(v) then n else z)
    case Brk(loop, Const(n)) =>
      var e := Resolve(c, loop, n);
      if e.Some? then Jmp(c.brkCont[e.value].brk) else op
    case Cont(loop, Const(n)) =>
      var e := Resolve(c, loop, n);
      if e.Some? then Jmp(c.brkCont[e.value].cont) else op
    case _ => op
  }

  function ImproveFrom(c: Code, i: nat): (r: Code)
    requires i <= |c.ops|
    decreases |c.ops| - i
  {
    if i == |c.ops| then c else ImproveFrom(Put(c, i, Better(c, i)), i + 1)
  }

  function Improved(c: Code): Code { ImproveFrom(c, 0) }

  // ---- BRK and CONT

  /** BRK is turned into a JMP in exactly the cases where the walk through n loops finds a loop and
      frees nothing, and the JMP goes where that walk ends. */
  lemma {:induction false} ResolveExact(c: Code, m: Store, trace: seq<Event>, loop: int, n: int)
    ensures var (at, tr) := Unwind(c, m, trace, loop, n);
      Resolve(c, loop, n) == if at >= 0 && tr == trace then Some(at) else None
    decreases n
  {
    if 0 <= loop < |c.brkCont| && n > 1 {
      var b := c.brkCont[loop].brk;
      if b < |c.ops| && IsFree(c.ops[b]) {
        UnwindGrows(c, m, trace + [RunEvent(m, c.ops[b])], c.brkCont[loop].parent, n - 1);
      } else {
        ResolveExact(c, m, trace, c.brkCont[loop].parent, n - 1);
      }
    }
  }

  // ---- what the pass leaves

  lemma {:induction false} ResolveSame(c: Code, d: Code, loop: int, n: int)
    requires d.brkCont == c.brkCont && |d.ops| == |c.ops|
    requires forall k {:trigger d.ops[k]} :: 0 <= k < |c.ops| ==> IsFree(d.ops[k]) == IsFree(c.ops[k])
    ensures Resolve(d, loop, n) == Resolve(c, loop, n)
    decreases n
  {
    if 0 <= loop < |c.brkCont| && n > 1 {
      ResolveSame(c, d, c.brkCont[loop].parent, n - 1);
    }
  }

  /** d is c but for the ops before i, and the same ops free something. */
  ghost predicate FromOn(c: Code, d: Code, i: nat) {
    && |d.ops| == |c.ops| && d.brkCont == c.brkCont
    && (forall k {:trigger d.ops[k]} :: i <= k < |c.ops| ==> d.ops[k] == c.ops[k])
    && (forall k {:trigger d.ops[k]} :: 0 <= k < |c.ops| ==> IsFree(d.ops[k]) == IsFree(c.ops[k]))
  }

  lemma BetterFrom(c: Code, d: Code, i: nat)
    requires FromOn(c, d, i) && i < |c.ops|
    ensures Better(d, i) == Better(c, i)
  {
    var op := c.ops[i];
    assert d.ops[i] == op && (i + 1 < |c.ops| ==> d.ops[i + 1] == c.ops[i + 1]);
    if (op.Brk? || op.Cont?) && op.levels.Const? {
      ResolveSame(c, d, op.loop, op.levels.v);
    }
  }

  lemma {:induction false} ImproveFromStays(c: Code, i: nat, k: nat)
    requires k < i <= |c.ops|
    ensures |ImproveFrom(c, i).ops| == |c.ops| && ImproveFrom(c, i).ops[k] == c.ops[k]
    decreases |c.ops| - i
  {
    if i < |c.ops| {
      ImproveFromStays(Put(c, i, Better(c, i)), i + 1, k);
    }
  }

  lemma {:induction false} ImprovedFromAt(c: Code, d: Code, i: nat, k: nat)
    requires FromOn(c, d, i) && i <= k < |c.ops|
    ensures |ImproveFrom(d, i).ops| == |c.ops| && ImproveFrom(d, i).ops[k] == Better(c, k)
    decreases |c.ops| - i
  {
    BetterFrom(c, d, i);
    var d' := Put(d, i, Better(d, i));
    if i == k {
      ImproveFromStays(d', i + 1, k);
    } else {
      assert FromOn(c, d', i + 1) by {
        assert IsFree(Better(c, i)) == IsFree(c.ops[i]);
      }
      ImprovedFromAt(c, d', i + 1, k);
    }
  }

  /** No op of the pass looks at what another has become. */
  lemma ImprovedAt(c: Code, k: nat)
    requires k < |c.ops|
    ensures |Improved(c).ops| == |c.ops| && Improved(c).ops[k] == Better(c, k)
  {
    ImprovedFromAt(c, c, 0, k);
  }

  /** A BRK or CONT out of a constant number of levels becomes the JMP to where the walk out of these loops ends, and
      stays what it is if there are not so many loops, or something would be freed on the way. */
  lemma BreakResolved(c: Code, i: nat, m: Store, trace: seq<Event>, at: int, tr: seq<Event>)
    requires i < |c.ops| && (c.ops[i].Brk? || c.ops[i].Cont?) && c.ops[i].levels.Const?
    requires (at, tr) == Unwind(c, m, trace, c.ops[i].loop, c.ops[i].levels.v)
    ensures |Improved(c).ops| == |c.ops| && at < |c.brkCont|
    ensures Improved(c).ops[i] == if at < 0 || tr != trace then c.ops[i]
                                  else Jmp(if c.ops[i].Cont? then c.brkCont[at].cont else c.brkCont[at].brk)
  {
    ImprovedAt(c, i);
    UnwindAt(c, m, trace, c.ops[i].loop, c.ops[i].levels.v);
    ResolveExact(c, m, trace, c.ops[i].loop, c.ops[i].levels.v);
  }

  lemma {:induction false} UnwindAt(c: Code, m: Store, trace: seq<Event>, loop: int, n: int)
    ensures Unwind(c, m, trace, loop, n).0 < |c.brkCont|
    decreases n
  {
    if 0 <= loop < |c.brkCont| && n > 1 {
      var b := c.brkCont[loop].brk;
      UnwindAt(c, m, if b < |c.ops| && IsFree(c.ops[b]) then trace + [RunEvent(m, c.ops[b])] else trace,
               c.brkCont[loop].parent, n - 1);
    }
  }

  /** Nothing is left to be decided: no branch on a constant, but for a JMPZ_EX or JMPNZ_EX that jumps; and every JMPZ
      or JMPNZ before a JMP has taken it in. */
  lemma NothingLeft(c: Code, i: nat)
    requires i < |c.ops|
    ensures |Improved(c).ops| == |c.ops|
    ensures match Improved(c).ops[i] {
      case CondJmp(_, x, _) => !x.Const? && !(i + 1 < |c.ops| && c.ops[i + 1].Jmp?)
      case JmpZnz(x, _, _) => !x.Const?
      case CondJmpEx(nz, x, _, _) => x.Const? ==> Truthy(x.v) == nz
      case _ => true }
  {
    ImprovedAt(c, i);
  }

  /** Such an op becomes a NOP exactly if both ways came to the same, and otherwise a JMPZNZ that leads to the one if
      the jump was taken and to the other if not. */
  lemma TakenIn(env: Env, c: Code, i: nat, s: State)
    requires i + 1 < |c.ops| && c.ops[i].CondJmp? && !c.ops[i].cond.Const? && c.ops[i + 1].Jmp? && s.pc == i && !s.done
    ensures |Improved(c).ops| == |c.ops| && Improved(c).ops[i + 1] == c.ops[i + 1]
    ensures Improved(c).ops[i].Nop? <==> c.ops[i].target == c.ops[i + 1].target
    ensures !Improved(c).ops[i].Nop? ==> Improved(c).ops[i].JmpZnz? && Step(env, Improved(c), s) == s.(pc :=
      if Truthy(Read(env, s, c.ops[i].cond)) == c.ops[i].nz then c.ops[i].target else c.ops[i + 1].target)
  {
    ImprovedAt(c, i);
    ImprovedAt(c, i + 1);
  }

  // ---- T = JMPZ_EX(C, L) that falls through becomes T = QM_ASSIGN(C)

  /** The constant of op i is already a boolean, or nobody gets the result, or op i is not folded. */
  predicate FoldsBool(op: Op) {
    match op
    case CondJmpEx(nz, Const(v), _, r) =>
      Truthy(v) != nz && (r.ResTmp? || r.ResVar?) ==> v == ToBool(v)
    case _ => true
  }

  ghost predicate SameSteps(env: Env, c: Code, i: nat, a: Op, b: Op) {
    forall s: State :: s.pc == i && !s.done ==> StepOp(env, c, a, s) == StepOp(env, c, b, s)
  }

  /** Folding keeps the constant where the jump would have stored a boolean. It is right if and only
      if the constant is one. */
  lemma FoldExact(env: Env, c: Code, i: nat)
    requires i < |c.ops| && c.ops[i].CondJmpEx?
    ensures SameSteps(env, c, i, Better(c, i), c.ops[i]) <==> FoldsBool(c.ops[i])
  {
    var s := State(i, map[], [], false);
    var op := c.ops[i];
    if !FoldsBool(op) {
      assert StepOp(env, c, Better(c, i), s).temps[op.result.n] == op.cond.v;
      assert StepOp(env, c, op, s).temps[op.result.n] == ToBool(op.cond.v);
    }
  }

  // ---- every rewrite is a shortcut

  /** JMPZ(X, L), JMP(L): the NOP in place of the JMPZ takes the detour over the JMP. */
  predicate Detour(c: Code, i: nat)
    requires i < |c.ops|
  {
    c.ops[i].CondJmp? && !c.ops[i].cond.Const? && Better(c, i).Nop?
  }

  lemma BetterStep(env: Env, c: Code, i: nat, s: State)
    requires i < |c.ops| && !s.done && s.pc == i && FoldsBool(c.ops[i]) && !Detour(c, i)
    ensures Follows(env, c, s, StepOp(env, Put(c, i, Better(c, i)), Better(c, i), s))
  {
    var op := c.ops[i];
    OneStep(env, c, s);
    assert Step(env, c, s) == StepOp(env, c, op, s);
    if Better(c, i) == op {
      assert Put(c, i, op) == c;
    } else if op.CondJmp? && !op.cond.Const? && i + 1 < |c.ops| && c.ops[i + 1].Jmp? {
      TwoSteps(env, c, s);
      var v := Step(env, c, s);
      if v.pc == i + 1 {
        assert Step(env, c, v) == StepOp(env, c, c.ops[i + 1], v);
      }
    } else if (op.Brk? || op.Cont?) && op.levels.Const? {
      ResolveExact(c, s.temps, s.trace, op.loop, op.levels.v);
      assert Read(env, s, op.levels) == op.levels.v;
    }
  }

  lemma DetourStep(env: Env, c: Code, i: nat, s: State)
    requires i < |c.ops| && !s.done && s.pc == i && Detour(c, i)
    ensures Follows(env, Put(c, i, Nop), s, StepOp(env, c, c.ops[i], s))
  {
    var c' := Put(c, i, Nop);
    OneStep(env, c', s);
    TwoSteps(env, c', s);
    var v := Step(env, c', s);
    assert v == s.(pc := i + 1);
    assert Step(env, c', v) == StepOp(env, c', c.ops[i + 1], v);
  }

  lemma BetterPreserves(env: Env, c: Code, i: nat)
    requires i < |c.ops| && FoldsBool(c.ops[i])
    ensures Runs(env, Put(c, i, Better(c, i))) == Runs(env, c)
  {
    var op, was := Better(c, i), c.ops[i];
    var c' := Put(c, i, op);
    if was.Exec? {
      assert c' == c;
    } else if Detour(c, i) {
      assert Put(c', i, was) == c;
      forall s: State {:trigger StepOp(env, c, was, s)} | !s.done && s.pc == i
        ensures Follows(env, c', s, StepOp(env, c, was, s))
      {
        DetourStep(env, c, i, s);
      }
      PutPreserves(env, c', i, was);
    } else {
      forall s: State {:trigger StepOp(env, c', op, s)} | !s.done && s.pc == i
        ensures Follows(env, c, s, StepOp(env, c', op, s))
      {
        BetterStep(env, c, i, s);
      }
      PutPreserves(env, c, i, op);
    }
  }

  ghost predicate AllFoldBool(ops: seq<Op>) {
    forall i {:trigger ops[i]} :: 0 <= i < |ops| ==> FoldsBool(ops[i])
  }

  lemma {:induction false} ImproveFromPreserves(env: Env, c: Code, i: nat)
    requires i <= |c.ops| && AllFoldBool(c.ops)
    ensures Runs(env, ImproveFrom(c, i)) == Runs(env, c)
    decreases |c.ops| - i
  {
    if i < |c.ops| {
      BetterPreserves(env, c, i);
      var c' := Put(c, i, Better(c, i));
      forall j | 0 <= j < |c'.ops| ensures FoldsBool(c'.ops[j]) {
        assert FoldsBool(c.ops[j]);
      }
      ImproveFromPreserves(env, c', i + 1);
    }
  }

  /** With booleans for the constants it folds, the pass changes no run. */
  lemma BoolsPreserve(env: Env, c: Code)
    requires AllFoldBool(c.ops)
    ensures Runs(env, Improved(c)) == Runs(env, c)
  {
    ImproveFromPreserves(env, c, 0);
  }

  /** What can go wrong otherwise: T = JMPZ_EX("5", L), RETURN T returns 1; folded, it returns 5. */
  lemma FoldChangesRun(env: Env)
    ensures exists c :: WellFormed(c) && Runs(env, Improved(c)) != Runs(env, c)
  {
    var ret := Return(Tmp(0));
    var c := Code([CondJmpEx(false, Const(5), 1, ResTmp(0)), ret], [], [], -1, 1);
    var c' := Code([QmAssign(Const(5), ResTmp(0)), ret], [], [], -1, 1);
    assert Put(c, 0, Better(c, 0)) == c' && Put(c', 1, Better(c', 1)) == c';
    assert Improved(c) == ImproveFrom(c', 1) == ImproveFrom(c', 2) == c';
    var o := Obs([Returned(Val(5))], true);
    TwoStepRun(env, c');
    TwoStepRun(env, c);
    MachineLawful(env, c);
    assert Seen(Stepper(env, c'), Observe(), Init(), o);
    if Seen(Stepper(env, c), Observe(), Init(), o) {
      EndsOnce(Stepper(env, c), Observe(), Init(), 2, o);
    }
    assert o in Runs(env, c') && o !in Runs(env, c);
  }

  lemma TwoStepRun(env: Env, c: Code)
    requires |c.ops| == 2 && c.ops[1] == Return(Tmp(0))
    requires c.ops[0] == QmAssign(Const(5), ResTmp(0)) || c.ops[0] == CondJmpEx(false, Const(5), 1, ResTmp(0))
    ensures ObsOf(Run(Stepper(env, c), Init(), 2)) == Obs([Returned(Val(if c.ops[0].QmAssign? then 5 else 1))], true)
  {
    var s := Step(env, c, Init());
    RunFrom(env, c, Init(), 0, s);
    assert s.pc == 1;
    RunNext(env, c, Init(), 1, s);
  }

  // ---- the pass itself, in place

  ghost predicate LoopsIn(c: Code) {
    && (forall i {:trigger c.brkCont[i]} :: 0 <= i < |c.brkCont| ==> -1 <= c.brkCont[i].parent < |c.brkCont|)
    && (forall i {:trigger c.ops[i]} :: 0 <= i < |c.ops| && (c.ops[i].Brk? || c.ops[i].Cont?) ==>
          -1 <= c.ops[i].loop < |c.brkCont|)
  }

  /** The walk out of n loops: nest_levels counts down, array_offset moves to the parent. */
  method ResolveLoop(a: OpArray, loop: int, n: int) returns (e: Option<nat>)
    requires a.Valid() && LoopsIn(a.View()) && WellFormed(a.View()) && -1 <= loop < a.brkCont.Length
    ensures e == Resolve(a.View(), loop, n)
  {
    var arrayOffset, nestLevels := loop, n;
    while true
      invariant -1 <= arrayOffset < a.brkCont.Length
      invariant Resolve(a.View(), arrayOffset, nestLevels) == Resolve(a.View(), loop, n)
      decreases nestLevels
    {
      if arrayOffset == -1 {
        return None;
      }
      var at: nat := arrayOffset;
      var jmpTo := a.brkCont[at];
      assert jmpTo == a.View().brkCont[at] && a.View().ops[jmpTo.brk] == a.opcodes[jmpTo.brk];
      arrayOffset := jmpTo.parent;
      nestLevels := nestLevels - 1;
      if nestLevels <= 0 {
        return Some(at);
      }
      if IsFree(a.opcodes[jmpTo.brk]) {
        return None;
      }
    }
  }

  method ImproveOp(a: OpArray, i: nat) returns (op: Op)
    requires a.Valid() && LoopsIn(a.View()) && WellFormed(a.View()) && i < a.last
    ensures op == Better(a.View(), i)
  {
    ghost var c := a.View();
    op := a.opcodes[i];
    assert op == c.ops[i];
    match op {
      case CondJmpEx(nz, x, t, r) =>
        if x.Const? && Truthy(x.v) != nz {
          op := QmAssign(x, r);
        }
      case CondJmp(nz, x, t) =>
        if x.Const? {
          op := if Truthy(x.v) == nz then Jmp(t) else Nop;
        } else {
          assert i + 1 < a.last && a.opcodes[i + 1] == c.ops[i + 1];
          if a.opcodes[i + 1].Jmp? {
            var u := a.opcodes[i + 1].target;
            if t == u {
              op := Nop;
            } else if !nz {
              op := JmpZnz(x, t, u);
            } else {
              op := JmpZnz(x, u, t);
            }
          }
        }
      case JmpZnz(x, z, n) =>
        if x.Const? {
          op := Jmp(if Truthy(x.v) then n else z);
        }
      case Brk(loop, levels) =>
        if levels.Const? {
          var e := ResolveLoop(a, loop, levels.v);
          if e.Some? {
            op := Jmp(a.brkCont[e.value].brk);
          }
        }
      case Cont(loop, levels) =>
        if levels.Const? {
          var e := ResolveLoop(a, loop, levels.v);
          if e.Some? {
            op := Jmp(a.brkCont[e.value].cont);
          }
        }
      case _ =>
    }
  }

  lemma BetterWellFormed(c: Code, i: nat)
    requires WellFormed(c) && LoopsIn(c) && i < |c.ops|
    ensures WellFormed(Put(c, i, Better(c, i))) && LoopsIn(Put(c, i, Better(c, i)))
  {
    var c' := Put(c, i, Better(c, i));
    forall j | 0 <= j < |c'.ops| ensures TargetsIn(c'.ops[j], |c'.ops|) {
      assert TargetsIn(c.ops[j], |c.ops|);
      if i + 1 < |c.ops| {
        assert TargetsIn(c.ops[i + 1], |c.ops|);
      }
    }
  }

  method Pass2(a: OpArray)
    requires a.Valid() && WellFormed(a.View()) && LoopsIn(a.View())
    modifies a.opcodes
    ensures a.Valid() && a.View() == Improved(old(a.View())) && WellFormed(a.View())
  {
    ghost var goal := Improved(a.View());
    for i := 0 to a.last
      invariant WellFormed(a.View()) && LoopsIn(a.View())
      invariant ImproveFrom(a.View(), i) == goal
    {
      ghost var c := a.View();
      BetterWellFormed(c, i);
      var op := ImproveOp(a, i);
      a.opcodes[i] := op;
      assert a.View() == Put(c, i, op);
    }
  }
}
