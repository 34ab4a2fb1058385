/** The bytecode the optimizer rewrites, and what running it means.

    Everything the engine does for an ordinary opcode is left uninterpreted: running one appends an
    event to the trace, and the environment answers from the whole trace with a result value or an
    exception. Compiled variables can be changed by any opcode, so their values are also a function
    of the trace. Only temporaries are held in the machine's own store. */
module Machine {
  import opened Simulation

  type Value = int

  predicate Truthy(v: Value) { v != 0 }

  function ToBool(v: Value): Value { if Truthy(v) then 1 else 0 }

  /** IS_UNUSED, IS_CONST, IS_TMP_VAR, IS_VAR, IS_CV. Tmp and Var share one numbering. */
  datatype Operand = Unused | Const(v: Value) | Tmp(n: nat) | Var(n: nat) | Cv(n: nat)

  /** Where a result goes: nowhere, a TMP, a VAR (perhaps flagged EXT_TYPE_UNUSED), or, for a delayed
      class declaration, the number of the next one on the early binding list. */
  datatype Result = NoResult | ResTmp(n: nat) | ResVar(n: nat, unused: bool) | Link(next: int)

  datatype Op =
    | Nop
    | Jmp(target: nat)
    | CondJmp(nz: bool, cond: Operand, target: nat)                      // JMPZ, JMPNZ
    | CondJmpEx(nz: bool, cond: Operand, target: nat, result: Result)    // JMPZ_EX, JMPNZ_EX
    | JmpZnz(cond: Operand, onZero: nat, onNonZero: nat)                 // op2, extended_value
    | QmAssign(src: Operand, result: Result)
    | Bool(src: Operand, result: Result)
    | Brk(loop: int, levels: Operand)
    | Cont(loop: int, levels: Operand)
    | Return(value: Operand)
    | Exec(code: nat, op1: Operand, op2: Operand, ext: Operand, result: Result)

  const FREE: nat := 70
  const SWITCH_FREE: nat := 49

  function WithResult(op: Op, r: Result): Op
    requires op.Exec?
  {
    Exec(op.code, op.op1, op.op2, op.ext, r)
  }

  predicate IsFree(op: Op) { op.Exec? && (op.code == FREE || op.code == SWITCH_FREE) }

  /** Control never runs on to the next op. */
  predicate Exits(op: Op) { op.Jmp? || op.JmpZnz? || op.Return? }

  datatype BrkCont = BrkCont(start: int, cont: nat, brk: nat, parent: int)
  datatype TryCatch = TryCatch(tryOp: nat, catchOp: nat)
  datatype Code = Code(ops: seq<Op>, brkCont: seq<BrkCont>, tryCatch: seq<TryCatch>,
                       earlyBinding: int, temps: nat)

  datatype Arg = NoArg | Val(v: Value) | Ref(cv: nat)
  datatype Event = Ran(code: nat, a: Arg, b: Arg, c: Arg) | Returned(a: Arg) | Uncaught | BadBreak | OffEnd
  datatype Outcome = Normal(v: Value) | Throws
  datatype Env = Env(outcome: seq<Event> -> Outcome, cv: (seq<Event>, nat) -> Value)

  type Store = map<nat, Value>
  datatype State = State(pc: int, temps: Store, trace: seq<Event>, done: bool)

  function Temp(m: Store, n: nat): Value { if n in m then m[n] else 0 }

  function Read(env: Env, s: State, o: Operand): Value {
    match o
    case Unused => 0
    case Const(v) => v
    case Tmp(n) => Temp(s.temps, n)
    case Var(n) => Temp(s.temps, n)
    case Cv(n) => env.cv(s.trace, n)
  }

  function ArgOf(m: Store, o: Operand): Arg {
    match o
    case Unused => NoArg
    case Const(v) => Val(v)
    case Tmp(n) => Val(Temp(m, n))
    case Var(n) => Val(Temp(m, n))
    case Cv(n) => Ref(n)
  }

  function Write(m: Store, r: Result, v: Value): Store {
    if r.ResTmp? || r.ResVar? then m[r.n := v] else m
  }

  /** The innermost handler around pc, as a catch_op; -1 if there is none. */
  function Handler(tc: seq<TryCatch>, pc: int): int {
    if tc == [] then -1
    else if tc[|tc| - 1].tryOp <= pc < tc[|tc| - 1].catchOp then tc[|tc| - 1].catchOp
    else Handler(tc[..|tc| - 1], pc)
  }

  function Halt(s: State, e: Event): State { s.(trace := s.trace + [e], done := true) }

  function RunEvent(m: Store, op: Op): Event
    requires op.Exec?
  {
    Ran(op.code, ArgOf(m, op.op1), ArgOf(m, op.op2), ArgOf(m, op.ext))
  }

  /** Where an n-level break out of loop leads: the loop it ends at (-1 if there are not that many),
      and the trace after freeing the variables of the loops left on the way. */
  function Unwind(c: Code, m: Store, trace: seq<Event>, loop: int, levels: int): (int, seq<Event>)
    decreases levels
  {
    if !(0 <= loop < |c.brkCont|) then (-1, trace)
    else if levels <= 1 then (loop, trace)
    else
      var b := c.brkCont[loop].brk;
      var freed := if b < |c.ops| && IsFree(c.ops[b]) then trace + [RunEvent(m, c.ops[b])] else trace;
      Unwind(c, m, freed, c.brkCont[loop].parent, levels - 1)
  }

  /** BRK or CONT out of n levels. */
  function Leave(c: Code, s: State, loop: int, levels: int, cont: bool): State {
    var (at, tr) := Unwind(c, s.temps, s.trace, loop, levels);
    if !(0 <= at < |c.brkCont|) then Halt(s.(trace := tr), BadBreak)
    else s.(pc := if cont then c.brkCont[at].cont else c.brkCont[at].brk, trace := tr)
  }

  /** One step of the op at s.pc. */
  function StepOp(env: Env, c: Code, op: Op, s: State): State {
    match op
    case Nop => s.(pc := s.pc + 1)
    case Jmp(t) => s.(pc := t)
    case CondJmp(nz, x, t) => s.(pc := if Truthy(Read(env, s, x)) == nz then t else s.pc + 1)
    case CondJmpEx(nz, x, t, r) =>
      var v := Read(env, s, x);
      s.(pc := if Truthy(v) == nz then t else s.pc + 1, temps := Write(s.temps, r, ToBool(v)))
    case JmpZnz(x, z, n) => s.(pc := if Truthy(Read(env, s, x)) then n else z)
    case QmAssign(x, r) => s.(pc := s.pc + 1, temps := Write(s.temps, r, Read(env, s, x)))
    case Bool(x, r) => s.(pc := s.pc + 1, temps := Write(s.temps, r, ToBool(Read(env, s, x))))
    case Brk(loop, n) => Leave(c, s, loop, Read(env, s, n), false)
    case Cont(loop, n) => Leave(c, s, loop, Read(env, s, n), true)
    case Return(x) => Halt(s, Returned(ArgOf(s.temps, x)))
    case Exec(_, _, _, _, r) =>
      var t := s.trace + [RunEvent(s.temps, op)];
      match env.outcome(t)
      case Normal(v) => State(s.pc + 1, Write(s.temps, r, v), t, false)
      case Throws =>
        var h := Handler(c.tryCatch, s.pc);
        if h < 0 then Halt(s.(trace := t), Uncaught) else s.(pc := h, trace := t)
  }

  function Step(env: Env, c: Code, s: State): State {
    if s.done then s
    else if !(0 <= s.pc < |c.ops|) then Halt(s, OffEnd)
    else StepOp(env, c, c.ops[s.pc], s)
  }

  function Init(): State { State(0, map[], [], false) }

  function ObsOf(s: State): Obs<Event> { Obs(s.trace, s.done) }
  function Observe(): State -> Obs<Event> { s => ObsOf(s) }
  function Stepper(env: Env, c: Code): State -> State { s => Step(env, c, s) }

  /** Everything that running the code from its first op can show. */
  ghost function Runs(env: Env, c: Code): iset<Obs<Event>> { Behaviour(Stepper(env, c), Observe(), Init()) }

  lemma {:induction false} UnwindGrows(c: Code, m: Store, trace: seq<Event>, loop: int, levels: int)
    ensures trace <= Unwind(c, m, trace, loop, levels).1
    ensures Unwind(c, m, trace, loop, levels).0 < |c.brkCont|
    decreases levels
  {
    if 0 <= loop < |c.brkCont| && levels > 1 {
      var b := c.brkCont[loop].brk;
      var freed := if b < |c.ops| && IsFree(c.ops[b]) then trace + [RunEvent(m, c.ops[b])] else trace;
      UnwindGrows(c, m, freed, c.brkCont[loop].parent, levels - 1);
    }
  }

  lemma MachineLawful(env: Env, c: Code)
    ensures Lawful(Stepper(env, c), Observe())
  {
    forall s: State
      ensures s.trace <= Step(env, c, s).trace
    {
      if !s.done && 0 <= s.pc < |c.ops| {
        var op := c.ops[s.pc];
        if op.Brk? || op.Cont? {
          UnwindGrows(c, s.temps, s.trace, op.loop, Read(env, s, op.levels));
        }
      }
    }
  }

  lemma RunNext(env: Env, c: Code, s: State, k: nat, u: State)
    requires u == Run(Stepper(env, c), s, k)
    ensures Run(Stepper(env, c), s, k + 1) == Step(env, c, u)
  {
  }

  lemma RunFrom(env: Env, c: Code, s: State, k: nat, u: State)
    requires u == Run(Stepper(env, c), Step(env, c, s), k)
    ensures u == Run(Stepper(env, c), s, k + 1)
  {
    RunAdd(Stepper(env, c), s, 1, k);
  }

  /** A finished run relates to itself after any step. */
  lemma DoneReaches(env: Env, c: Code, c': Code, s: State, t: State, R: (State, State) -> bool)
    requires s.done && t.done && R(s, t)
    ensures Reaches(Stepper(env, c')(s), Stepper(env, c), t, R)
  {
    assert Run(Stepper(env, c), t, 1) == t;
  }
}
