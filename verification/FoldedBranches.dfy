/** T = JMPZ_EX(C, L) that falls through becomes T = QM_ASSIGN(C) in pass 2, and T holds C where it held a boolean. When
    that can be seen, for whole runs. */
module FoldedBranches {
  import opened Simulation
  import opened Machine
  import opened LiveRanges
  import opened Rewrite
  import opened Pass2

  predicate Folds(op: Op) { op.CondJmpEx? && op.cond.Const? && Truthy(op.cond.v) != op.nz }

  function Fold(op: Op): Op { if Folds(op) then QmAssign(op.cond, op.result) else op }

  /** All ops from i on folded, and nothing else done. */
  function FoldedFrom(c: Code, i: nat): (r: Code)
    ensures |r.ops| == |c.ops| && forall k {:trigger r.ops[k]} :: 0 <= k < |c.ops| ==>
      r.ops[k] == if k >= i then Fold(c.ops[k]) else c.ops[k]
  {
    c.(ops := seq(|c.ops|, k requires 0 <= k < |c.ops| => if k >= i then Fold(c.ops[k]) else c.ops[k]))
  }

  function Folded(c: Code): Code { FoldedFrom(c, 0) }

  // ---- the rest of the pass does not matter

  lemma BetterFolded(c: Code, i: nat)
    requires i < |c.ops|
    ensures Better(FoldedFrom(c, i), i) == Better(c, i)
  {
    var d, op := FoldedFrom(c, i), c.ops[i];
    if (op.Brk? || op.Cont?) && op.levels.Const? {
      ResolveSame(c, d, op.loop, op.levels.v);
    }
    assert i + 1 < |c.ops| ==> d.ops[i + 1] == Fold(c.ops[i + 1]);
  }

  lemma {:induction false} ImproveFolded(c: Code, i: nat)
    requires i <= |c.ops|
    ensures ImproveFrom(FoldedFrom(c, i), i) == ImproveFrom(c, i)
    decreases |c.ops| - i
  {
    if i < |c.ops| {
      var c' := Put(c, i, Better(c, i));
      BetterFolded(c, i);
      assert Put(FoldedFrom(c, i), i, Better(c, i)).ops == FoldedFrom(c', i + 1).ops;
      ImproveFolded(c', i + 1);
    } else {
      assert FoldedFrom(c, i).ops == c.ops;
    }
  }

  lemma ImprovedIsFolded(env: Env, c: Code)
    ensures Runs(env, Improved(c)) == Runs(env, Folded(c))
  {
    ImproveFolded(c, 0);
    forall i | 0 <= i < |c.ops| ensures FoldsBool(Folded(c).ops[i]) {
    }
    BoolsPreserve(env, Folded(c));
  }

  // ---- following the constants through a run

  /** The temporaries whose values differ, with the values they have in the folded code. */
  type Marks = map<nat, Value>

  function Cleared(marks: Marks, r: Result): Marks { if HasTemp(r) then marks - {r.n} else marks }

  function MarksAfter(env: Env, c: Code, s: State, marks: Marks): Marks {
    if s.done || !(0 <= s.pc < |c.ops|) then marks
    else
      var op := c.ops[s.pc];
      match op
      case CondJmpEx(_, x, _, r) => if Folds(op) && HasTemp(r) && x.v != ToBool(x.v) then marks[r.n := x.v]
        else Cleared(marks, r)
      case QmAssign(x, r) => if HasTemp(r) && IsTemp(x) && x.n in marks then marks[r.n := marks[x.n]]
        else Cleared(marks, r)
      case Bool(_, r) => Cleared(marks, r)
      case Exec(_, _, _, _, r) => if env.outcome(s.trace + [RunEvent(s.temps, op)]).Normal? then Cleared(marks, r)
        else marks
      case _ => marks
  }

  /** Both after n steps of the original code. */
  ghost function Marked(env: Env, c: Code, n: nat): (State, Marks) {
    if n == 0 then (Init(), map[])
    else
      var (s, marks) := Marked(env, c, n - 1);
      (Step(env, c, s), MarksAfter(env, c, s, marks))
  }

  /** The state of the folded code. */
  function Shadow(s: State, marks: Marks): State { s.(temps := s.temps + marks) }

  /** Where the values differ, the original has the boolean and the other value is true too. */
  ghost predicate Fair(s: State, marks: Marks) {
    forall t {:trigger t in marks} :: t in marks ==> t in s.temps && s.temps[t] == 1 && Truthy(marks[t])
  }

  /** The op about to run does not show the difference. */
  ghost predicate Hidden(env: Env, c: Code, s: State, marks: Marks) {
    Step(env, c, Shadow(s, marks)) == Step(env, c, s).(temps := Step(env, c, Shadow(s, marks)).temps)
  }

  ghost predicate HiddenAt(env: Env, c: Code, n: nat) {
    var (s, marks) := Marked(env, c, n);
    Hidden(env, c, s, marks)
  }

  lemma {:induction false} UnwindFolded(c: Code, m: Store, trace: seq<Event>, loop: int, levels: int)
    ensures Unwind(Folded(c), m, trace, loop, levels) == Unwind(c, m, trace, loop, levels)
    decreases levels
  {
    if 0 <= loop < |c.brkCont| && levels > 1 {
      var b := c.brkCont[loop].brk;
      var freed := if b < |c.ops| && IsFree(c.ops[b]) then trace + [RunEvent(m, c.ops[b])] else trace;
      assert b < |c.ops| ==> Folded(c).ops[b] == Fold(c.ops[b]);
      UnwindFolded(c, m, freed, c.brkCont[loop].parent, levels - 1);
    }
  }

  lemma WriteShadow(m: Store, marks: Marks, r: Result, v: Value)
    ensures Write(m + marks, r, v) == Write(m, r, v) + Cleared(marks, r)
    ensures HasTemp(r) ==> forall u: Value :: Write(m + marks, r, u) == Write(m, r, v) + marks[r.n := u]
  {
  }

  /** What is not looked at closely has the same truth value. */
  lemma ReadShadow(env: Env, s: State, marks: Marks, x: Operand)
    requires Fair(s, marks)
    ensures Truthy(Read(env, Shadow(s, marks), x)) == Truthy(Read(env, s, x))
    ensures !(IsTemp(x) && x.n in marks) ==> Read(env, Shadow(s, marks), x) == Read(env, s, x)
    ensures IsTemp(x) && x.n in marks ==> Read(env, Shadow(s, marks), x) == marks[x.n] && Read(env, s, x) == 1
  {
  }

  lemma StepOfFolded(env: Env, c: Code, s: State)
    requires !s.done && 0 <= s.pc < |c.ops| && !Folds(c.ops[s.pc])
    ensures Step(env, Folded(c), s) == Step(env, c, s)
  {
    var op := c.ops[s.pc];
    assert Folded(c).ops[s.pc] == op;
    if op.Brk? || op.Cont? {
      UnwindFolded(c, s.temps, s.trace, op.loop, Read(env, s, op.levels));
    }
  }

  lemma ShadowFold(env: Env, c: Code, s: State, marks: Marks)
    requires Fair(s, marks) && !s.done && 0 <= s.pc < |c.ops| && Folds(c.ops[s.pc])
    ensures Step(env, Folded(c), Shadow(s, marks)) == Shadow(Step(env, c, s), MarksAfter(env, c, s, marks))
    ensures Fair(Step(env, c, s), MarksAfter(env, c, s, marks))
  {
    var op := c.ops[s.pc];
    assert Folded(c).ops[s.pc] == QmAssign(op.cond, op.result);
    WriteShadow(s.temps, marks, op.result, ToBool(op.cond.v));
  }

  lemma ShadowExec(env: Env, c: Code, s: State, marks: Marks)
    requires Fair(s, marks) && Hidden(env, c, s, marks) && !s.done && 0 <= s.pc < |c.ops| && c.ops[s.pc].Exec?
    ensures Step(env, Folded(c), Shadow(s, marks)) == Shadow(Step(env, c, s), MarksAfter(env, c, s, marks))
    ensures Fair(Step(env, c, s), MarksAfter(env, c, s, marks))
  {
    var op := c.ops[s.pc];
    StepOfFolded(env, c, Shadow(s, marks));
    var e', e := RunEvent(s.temps + marks, op), RunEvent(s.temps, op);
    assert e' == e by {
      assert Step(env, c, Shadow(s, marks)).trace[|s.trace|] == e' && Step(env, c, s).trace[|s.trace|] == e;
    }
    var o := env.outcome(s.trace + [e]);
    if o.Normal? {
      WriteShadow(s.temps, marks, op.result, o.v);
    }
  }

  /** As long as nothing shows, the folded code keeps step. */
  lemma ShadowOther(env: Env, c: Code, s: State, marks: Marks, op: Op)
    requires Fair(s, marks) && Hidden(env, c, s, marks)
    requires !s.done && 0 <= s.pc < |c.ops| && op == c.ops[s.pc] && !Folds(op) && !op.Exec?
    ensures Step(env, Folded(c), Shadow(s, marks)) == Shadow(Step(env, c, s), MarksAfter(env, c, s, marks))
    ensures Fair(Step(env, c, s), MarksAfter(env, c, s, marks))
  {
    ReadShadow(env, s, marks, Op1(op));
    StepOfFolded(env, c, Shadow(s, marks));
    match op
    case CondJmpEx(_, x, _, r) => WriteShadow(s.temps, marks, r, ToBool(Read(env, s, x)));
    case QmAssign(x, r) => WriteShadow(s.temps, marks, r, Read(env, s, x));
    case Bool(x, r) => WriteShadow(s.temps, marks, r, ToBool(Read(env, s, x)));
    case _ =>
  }

  lemma ShadowStep(env: Env, c: Code, s: State, marks: Marks)
    requires Fair(s, marks) && Hidden(env, c, s, marks)
    ensures Step(env, Folded(c), Shadow(s, marks)) == Shadow(Step(env, c, s), MarksAfter(env, c, s, marks))
    ensures Fair(Step(env, c, s), MarksAfter(env, c, s, marks))
  {
    if !s.done && 0 <= s.pc < |c.ops| {
      var op := c.ops[s.pc];
      if Folds(op) {
        ShadowFold(env, c, s, marks);
      } else if op.Exec? {
        ShadowExec(env, c, s, marks);
      } else {
        ShadowOther(env, c, s, marks, op);
      }
    }
  }

  lemma {:induction false} Lockstep(env: Env, c: Code, n: nat)
    requires forall k: nat {:trigger HiddenAt(env, c, k)} :: k < n ==> HiddenAt(env, c, k)
    ensures var (s, marks) := Marked(env, c, n);
      && Fair(s, marks) && Run(Stepper(env, c), Init(), n) == s
      && Run(Stepper(env, Folded(c)), Init(), n) == Shadow(s, marks)
  {
    if n > 0 {
      Lockstep(env, c, n - 1);
      var (s, marks) := Marked(env, c, n - 1);
      assert HiddenAt(env, c, n - 1);
      ShadowStep(env, c, s, marks);
    } else {
      assert Shadow(Init(), map[]) == Init();
    }
  }

  // ---- nothing shows

  ghost predicate AlwaysHidden(env: Env, c: Code) {
    forall n: nat {:trigger HiddenAt(env, c, n)} :: HiddenAt(env, c, n)
  }

  lemma HiddenPreserves(env: Env, c: Code)
    requires AlwaysHidden(env, c)
    ensures Runs(env, Improved(c)) == Runs(env, c)
  {
    ImprovedIsFolded(env, c);
    forall o: Obs<Event> ensures o in Runs(env, Folded(c)) <==> o in Runs(env, c) {
      forall n: nat
        ensures Observe()(Run(Stepper(env, Folded(c)), Init(), n)) == Observe()(Run(Stepper(env, c), Init(), n))
      {
        Lockstep(env, c, n);
      }
    }
  }

  // ---- something shows

  ghost predicate Apart(a: seq<Event>, b: seq<Event>) { !(a <= b) && !(b <= a) }

  /** The op about to run shows the value of a temporary that differs. */
  ghost predicate Exposed(env: Env, c: Code, s: State, marks: Marks) {
    Apart(Step(env, c, Shadow(s, marks)).trace, Step(env, c, s).trace)
  }

  ghost predicate ExposedAt(env: Env, c: Code, n: nat) {
    var (s, marks) := Marked(env, c, n);
    Exposed(env, c, s, marks)
  }

  lemma TraceGrows(env: Env, c: Code, m: nat, n: nat)
    requires m <= n
    ensures Run(Stepper(env, c), Init(), m).trace <= Run(Stepper(env, c), Init(), n).trace
  {
    MachineLawful(env, c);
    var s := Run(Stepper(env, c), Init(), m);
    RunAdd(Stepper(env, c), Init(), m, n - m);
    RunGrows(Stepper(env, c), Observe(), s, n - m);
    assert Observe()(s).trace == s.trace;
  }

  /** Of two points of a run the events seen at one are a beginning of those seen at the other. */
  lemma OneTrace(env: Env, c: Code, m: nat, n: nat, t: seq<Event>, b: seq<Event>)
    requires t == Run(Stepper(env, c), Init(), m).trace && b == Run(Stepper(env, c), Init(), n).trace
    ensures t <= b || b <= t
  {
    if m <= n {
      TraceGrows(env, c, m, n);
    } else {
      TraceGrows(env, c, n, m);
    }
  }

  lemma ApartRuns(env: Env, c: Code, d: Code, n: nat, a: seq<Event>, b: seq<Event>)
    requires Run(Stepper(env, d), Init(), n).trace == a && Run(Stepper(env, c), Init(), n).trace == b && Apart(a, b)
    ensures Runs(env, d) != Runs(env, c)
  {
    var o := Obs(a, false);
    assert o.Leq(Observe()(Run(Stepper(env, d), Init(), n)));
    assert o in Runs(env, d);
    if o in Runs(env, c) {
      var m: nat :| o.Leq(Observe()(Run(Stepper(env, c), Init(), m)));
      var t := Run(Stepper(env, c), Init(), m).trace;
      OneTrace(env, c, m, n, t, b);
      if b <= t {
        PrefixesCompare(a, b, t);
      }
    }
  }

  lemma PrefixesCompare(a: seq<Event>, b: seq<Event>, t: seq<Event>)
    requires a <= t && b <= t
    ensures a <= b || b <= a
  {
    assert a == t[..|a|] && b == t[..|b|];
  }

  lemma ExposedStep(env: Env, c: Code, s: State, marks: Marks)
    requires Exposed(env, c, s, marks)
    ensures Step(env, Folded(c), Shadow(s, marks)) == Step(env, c, Shadow(s, marks))
  {
    assert !s.done && 0 <= s.pc < |c.ops|;
    assert !Folds(c.ops[s.pc]);
    StepOfFolded(env, c, Shadow(s, marks));
  }

  lemma ExposedChanges(env: Env, c: Code, n: nat)
    requires forall k: nat {:trigger HiddenAt(env, c, k)} :: k < n ==> HiddenAt(env, c, k)
    requires ExposedAt(env, c, n)
    ensures Runs(env, Improved(c)) != Runs(env, c)
  {
    ImprovedIsFolded(env, c);
    Lockstep(env, c, n);
    var (s, marks) := Marked(env, c, n);
    ExposedStep(env, c, s, marks);
    StepsApart(env, c, Folded(c), n, Shadow(s, marks), s);
  }

  lemma StepsApart(env: Env, c: Code, d: Code, n: nat, x: State, s: State)
    requires x == Run(Stepper(env, d), Init(), n) && s == Run(Stepper(env, c), Init(), n)
    requires Apart(Step(env, d, x).trace, Step(env, c, s).trace)
    ensures Runs(env, d) != Runs(env, c)
  {
    RunNext(env, d, Init(), n, x);
    RunNext(env, c, Init(), n, s);
    ApartRuns(env, c, d, n + 1, Step(env, d, x).trace, Step(env, c, s).trace);
  }

  // ---- one or the other

  /** BRK and CONT get their levels from constants or compiled variables. */
  ghost predicate FixedLevels(ops: seq<Op>) {
    forall i {:trigger ops[i]} :: 0 <= i < |ops| && (ops[i].Brk? || ops[i].Cont?) ==> !IsTemp(ops[i].levels)
  }

  lemma {:induction false} UnwindBoth(c: Code, m': Store, m: Store, trace': seq<Event>, trace: seq<Event>, loop: int,
          levels: int)
    requires |trace'| == |trace|
    ensures var (at', tr') := Unwind(c, m', trace', loop, levels);
      var (at, tr) := Unwind(c, m, trace, loop, levels);
      at' == at && |tr'| == |tr|
    decreases levels
  {
    if 0 <= loop < |c.brkCont| && levels > 1 {
      var b := c.brkCont[loop].brk;
      if b < |c.ops| && IsFree(c.ops[b]) {
        UnwindBoth(c, m', m, trace' + [RunEvent(m', c.ops[b])], trace + [RunEvent(m, c.ops[b])],
          c.brkCont[loop].parent, levels - 1);
      } else {
        UnwindBoth(c, m', m, trace', trace, c.brkCont[loop].parent, levels - 1);
      }
    }
  }

  lemma SameLengthApart(a: seq<Event>, b: seq<Event>)
    requires |a| == |b| && a != b
    ensures Apart(a, b)
  {
  }

  lemma OtherEventApart(tr: seq<Event>, a: seq<Event>, b: seq<Event>)
    requires |a| > |tr| && |b| > |tr| && a[|tr|] != b[|tr|]
    ensures Apart(a, b)
  {
  }

  lemma EitherExec(env: Env, c: Code, s: State, marks: Marks)
    requires !s.done && 0 <= s.pc < |c.ops| && c.ops[s.pc].Exec?
    ensures Hidden(env, c, s, marks) || Exposed(env, c, s, marks)
  {
    var op, x := c.ops[s.pc], Shadow(s, marks);
    var e', e := RunEvent(x.temps, op), RunEvent(s.temps, op);
    if e' != e {
      assert Step(env, c, x).trace[|s.trace|] == e' && Step(env, c, s).trace[|s.trace|] == e;
      OtherEventApart(s.trace, Step(env, c, x).trace, Step(env, c, s).trace);
    }
  }

  lemma EitherBreak(env: Env, c: Code, s: State, marks: Marks)
    requires !s.done && 0 <= s.pc < |c.ops| && (c.ops[s.pc].Brk? || c.ops[s.pc].Cont?) && !IsTemp(c.ops[s.pc].levels)
    ensures Hidden(env, c, s, marks) || Exposed(env, c, s, marks)
  {
    var op, x := c.ops[s.pc], Shadow(s, marks);
    UnwindBoth(c, x.temps, s.temps, s.trace, s.trace, op.loop, Read(env, s, op.levels));
    if Step(env, c, x).trace != Step(env, c, s).trace {
      SameLengthApart(Step(env, c, x).trace, Step(env, c, s).trace);
    }
  }

  lemma EitherWay(env: Env, c: Code, s: State, marks: Marks)
    requires Fair(s, marks) && FixedLevels(c.ops)
    ensures Hidden(env, c, s, marks) || Exposed(env, c, s, marks)
  {
    if !s.done && 0 <= s.pc < |c.ops| {
      var op, x := c.ops[s.pc], Shadow(s, marks);
      if op.Exec? {
        EitherExec(env, c, s, marks);
      } else if op.Brk? || op.Cont? {
        EitherBreak(env, c, s, marks);
      } else if op.Return? {
        if Step(env, c, x).trace != Step(env, c, s).trace {
          SameLengthApart(Step(env, c, x).trace, Step(env, c, s).trace);
        }
      } else {
        ReadShadow(env, s, marks, Op1(op));
      }
    }
  }

  lemma {:induction false} FirstExposed(env: Env, c: Code, n: nat) returns (k: nat)
    requires FixedLevels(c.ops) && ExposedAt(env, c, n)
    ensures ExposedAt(env, c, k)
    ensures forall j: nat {:trigger HiddenAt(env, c, j)} :: j < k ==> HiddenAt(env, c, j)
  {
    if exists j: nat {:trigger ExposedAt(env, c, j)} :: j < n && ExposedAt(env, c, j) {
      var j: nat :| j < n && ExposedAt(env, c, j);
      k := FirstExposed(env, c, j);
    } else {
      k := n;
      HiddenUpTo(env, c, n);
    }
  }

  lemma HiddenNext(env: Env, c: Code, n: nat)
    requires FixedLevels(c.ops) && !ExposedAt(env, c, n)
    requires forall k: nat {:trigger HiddenAt(env, c, k)} :: k < n ==> HiddenAt(env, c, k)
    ensures HiddenAt(env, c, n)
  {
    Lockstep(env, c, n);
    EitherWay(env, c, Marked(env, c, n).0, Marked(env, c, n).1);
  }

  lemma {:induction false} HiddenUpTo(env: Env, c: Code, n: nat)
    requires FixedLevels(c.ops)
    requires forall j: nat {:trigger ExposedAt(env, c, j)} :: j < n ==> !ExposedAt(env, c, j)
    ensures forall j: nat {:trigger HiddenAt(env, c, j)} :: j < n ==> HiddenAt(env, c, j)
  {
    if n > 0 {
      HiddenUpTo(env, c, n - 1);
      HiddenNext(env, c, n - 1);
    }
  }

  /** The pass changes a run if and only if at some step of it an op shows the value of a temporary that holds, by way
      of copies or not, the constant of a folded branch in place of a boolean. */
  lemma ImprovedExact(env: Env, c: Code)
    requires FixedLevels(c.ops)
    ensures Runs(env, Improved(c)) != Runs(env, c) <==>
      exists n: nat :: ExposedAt(env, c, n)
  {
    if exists n: nat :: ExposedAt(env, c, n) {
      var n: nat :| ExposedAt(env, c, n);
      var k := FirstExposed(env, c, n);
      ExposedChanges(env, c, k);
    } else {
      forall n: nat ensures HiddenAt(env, c, n) {
        HiddenUpTo(env, c, n + 1);
      }
      HiddenPreserves(env, c);
    }
  }

  // ---- a condition on the code

  /** Each constant that is folded is a boolean, or its temporary is not live afterwards. */
  ghost predicate FoldsDead(c: Code, live: seq<set<nat>>)
    requires |live| == |c.ops|
  {
    forall i {:trigger c.ops[i]} :: 0 <= i < |c.ops| ==>
      FoldsBool(c.ops[i]) || (i + 1 < |c.ops| ==> c.ops[i].result.n !in live[i + 1])
  }

  ghost predicate MarksDead(c: Code, live: seq<set<nat>>, s: State, marks: Marks)
    requires |live| == |c.ops|
  {
    !s.done && 0 <= s.pc < |c.ops| ==> forall t: nat {:trigger t in live[s.pc]} :: t in marks ==> t !in live[s.pc]
  }

  lemma {:induction false} UnwindUnmarked(c: Code, marks: Marks, m: Store, trace: seq<Event>, loop: int, levels: int)
    requires forall k, t: nat {:trigger OnChain(c, loop, k), FreesAt(c, c.brkCont[k].brk, t)} ::
      0 <= k < |c.brkCont| && OnChain(c, loop, k) && FreesAt(c, c.brkCont[k].brk, t) ==> t !in marks
    ensures Unwind(c, m + marks, trace, loop, levels) == Unwind(c, m, trace, loop, levels)
    decreases levels
  {
    if 0 <= loop < |c.brkCont| && levels > 1 {
      var b := c.brkCont[loop].brk;
      var freed := trace;
      ChainStart(c, loop);
      ChainUp(c, loop);
      if b < |c.ops| && IsFree(c.ops[b]) {
        assert forall t: nat :: Uses(c.ops[b], t) ==> FreesAt(c, c.brkCont[loop].brk, t);
        EventUnmarked(m, marks, c.ops[b]);
        freed := trace + [RunEvent(m, c.ops[b])];
      }
      forall k, t: nat | 0 <= k < |c.brkCont| && OnChain(c, c.brkCont[loop].parent, k)
        && FreesAt(c, c.brkCont[k].brk, t)
        ensures t !in marks
      {
        assert OnChain(c, loop, k);
      }
      UnwindUnmarked(c, marks, m, freed, c.brkCont[loop].parent, levels - 1);
    }
  }

  lemma EventUnmarked(m: Store, marks: Marks, op: Op)
    requires op.Exec? && forall t: nat :: Uses(op, t) ==> t !in marks
    ensures RunEvent(m + marks, op) == RunEvent(m, op)
  {
    assert forall o: Operand :: (o == Op1(op) || o == Op2(op) || o == Ext(op)) && IsTemp(o) ==> Uses(op, o.n);
  }

  lemma UnreadBreak(env: Env, c: Code, s: State, marks: Marks)
    requires Fair(s, marks) && !s.done && 0 <= s.pc < |c.ops| && (c.ops[s.pc].Brk? || c.ops[s.pc].Cont?)
    requires forall t: nat {:trigger Reads(c, s.pc, t)} :: Reads(c, s.pc, t) ==> t !in marks
    ensures Hidden(env, c, s, marks)
  {
    var op, p: nat := c.ops[s.pc], s.pc;
    assert IsTemp(op.levels) ==> Reads(c, p, op.levels.n);
    ReadShadow(env, s, marks, op.levels);
    forall k, t: nat | 0 <= k < |c.brkCont| && OnChain(c, op.loop, k) && FreesAt(c, c.brkCont[k].brk, t)
      ensures t !in marks
    {
      assert Reads(c, p, t);
    }
    UnwindUnmarked(c, marks, s.temps, s.trace, op.loop, Read(env, s, op.levels));
  }

  lemma UnreadIsHidden(env: Env, c: Code, s: State, marks: Marks)
    requires Fair(s, marks)
    requires !s.done && 0 <= s.pc < |c.ops| ==> forall t: nat {:trigger Reads(c, s.pc, t)} :: Reads(c, s.pc, t) ==>
      t !in marks
    ensures Hidden(env, c, s, marks)
  {
    if !s.done && 0 <= s.pc < |c.ops| {
      var op, p: nat := c.ops[s.pc], s.pc;
      assert forall t: nat :: Uses(op, t) ==> Reads(c, p, t);
      if op.Exec? {
        EventUnmarked(s.temps, marks, op);
      } else if op.Brk? || op.Cont? {
        UnreadBreak(env, c, s, marks);
      } else {
        assert IsTemp(Op1(op)) ==> Uses(op, Op1(op).n);
        ReadShadow(env, s, marks, Op1(op));
      }
    }
  }

  lemma MarksStayDead(env: Env, c: Code, live: seq<set<nat>>, s: State, marks: Marks)
    requires Liveness(c, live) && FoldsDead(c, live) && MarksDead(c, live, s, marks) && Fair(s, marks)
    requires Hidden(env, c, s, marks)
    ensures MarksDead(c, live, Step(env, c, s), MarksAfter(env, c, s, marks))
  {
    var u, marks' := Step(env, c, s), MarksAfter(env, c, s, marks);
    if !u.done && !s.done && 0 <= s.pc < |c.ops| && 0 <= u.pc < |c.ops| {
      var p: nat, op := s.pc, c.ops[s.pc];
      assert IsTemp(Op1(op)) ==> Uses(op, Op1(op).n) && Reads(c, p, Op1(op).n);
      StepGoes(env, c, s);
      assert forall t: nat {:trigger t in live[u.pc]} :: t in live[u.pc] && t in marks ==> t !in live[p];
    }
  }

  /** Control goes on to a next op, or an exception is caught. */
  lemma StepGoes(env: Env, c: Code, s: State)
    requires !s.done && 0 <= s.pc < |c.ops|
    ensures var u, op := Step(env, c, s), c.ops[s.pc];
      u.done || Next(c, s.pc, u.pc)
      || (op.Exec? && env.outcome(s.trace + [RunEvent(s.temps, op)]).Throws? && u.pc == Handler(c.tryCatch, s.pc))
    ensures Folds(c.ops[s.pc]) ==> Step(env, c, s).pc == s.pc + 1
  {
    var op := c.ops[s.pc];
    if op.Brk? || op.Cont? {
      UnwindOnChain(c, s.temps, s.trace, op.loop, Read(env, s, op.levels));
    }
  }

  lemma {:induction false} DeadIsHidden(env: Env, c: Code, live: seq<set<nat>>, n: nat)
    requires Liveness(c, live) && FoldsDead(c, live)
    ensures var (s, marks) := Marked(env, c, n);
      Fair(s, marks) && MarksDead(c, live, s, marks) && Hidden(env, c, s, marks)
  {
    if n > 0 {
      DeadIsHidden(env, c, live, n - 1);
      var (s, marks) := Marked(env, c, n - 1);
      ShadowStep(env, c, s, marks);
      MarksStayDead(env, c, live, s, marks);
    }
    var (s, marks) := Marked(env, c, n);
    UnreadIsHidden(env, c, s, marks);
  }

  /** Pass 2's branch rewrites preserve every run, if each constant that is folded is a boolean or its temporary is not
      live afterwards. */
  lemma ImprovedPreserves(env: Env, c: Code, live: seq<set<nat>>)
    requires AllFoldBool(c.ops) || (Liveness(c, live) && FoldsDead(c, live))
    ensures Runs(env, Improved(c)) == Runs(env, c)
  {
    if AllFoldBool(c.ops) {
      BoolsPreserve(env, c);
    } else {
      forall n: nat ensures HiddenAt(env, c, n) {
        DeadIsHidden(env, c, live, n);
      }
      HiddenPreserves(env, c);
    }
  }

  /** 5 && f(): the constant is no boolean, and its temporary is written again before it is read. */
  const AND: Code := Code(
    [CondJmpEx(false, Const(5), 3, ResTmp(0)), Exec(1, Unused, Unused, Unused, ResTmp(1)), Bool(Tmp(1), ResTmp(0)),
      Return(Tmp(0))],
    [], [], -1, 2)

  lemma AndLive(live: seq<set<nat>>)
    requires live == [{}, {}, {1}, {0}]
    ensures Liveness(AND, live) && FoldsDead(AND, live)
  {
  }

  lemma AndIsFine(env: Env)
    ensures !AllFoldBool(AND.ops) && Runs(env, Improved(AND)) == Runs(env, AND)
  {
    assert !FoldsBool(AND.ops[0]);
    AndLive([{}, {}, {1}, {0}]);
    ImprovedPreserves(env, AND, [{}, {}, {1}, {0}]);
  }
}
