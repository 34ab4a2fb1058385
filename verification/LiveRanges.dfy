/** Which temporaries an op reads and writes, where control goes from it, and liveness. */
module LiveRanges {
  import opened Machine

  // ---- the operands of an op, in the order the scan looks at them

  function Op1(op: Op): Operand {
    match op
    case CondJmp(_, x, _) => x
    case CondJmpEx(_, x, _, _) => x
    case JmpZnz(x, _, _) => x
    case QmAssign(x, _) => x
    case Bool(x, _) => x
    case Return(x) => x
    case Exec(_, x, _, _, _) => x
    case _ => Unused
  }

  function Op2(op: Op): Operand {
    match op
    case Brk(_, x) => x
    case Cont(_, x) => x
    case Exec(_, _, x, _, _) => x
    case _ => Unused
  }

  function Ext(op: Op): Operand { if op.Exec? then op.ext else Unused }

  function ResultOf(op: Op): Result {
    match op
    case CondJmpEx(_, _, _, r) => r
    case QmAssign(_, r) => r
    case Bool(_, r) => r
    case Exec(_, _, _, _, r) => r
    case _ => NoResult
  }

  predicate IsTemp(o: Operand) { o.Tmp? || o.Var? }
  predicate HasTemp(r: Result) { r.ResTmp? || r.ResVar? }
  function TempSet(o: Operand): set<nat> { if IsTemp(o) then {o.n} else {} }
  function UseSet(op: Op): set<nat> { TempSet(Op1(op)) + TempSet(Op2(op)) + TempSet(Ext(op)) }

  predicate Uses(op: Op, t: nat) { t in UseSet(op) }

  predicate Defines(op: Op, t: nat) { HasTemp(ResultOf(op)) && ResultOf(op).n == t }

  // ---- where control goes

  /** The loop n levels out of loop. */
  function Ancestor(c: Code, loop: int, n: nat): int
    decreases n
  {
    if n == 0 || !(0 <= loop < |c.brkCont|) then loop else Ancestor(c, c.brkCont[loop].parent, n - 1)
  }

  ghost predicate OnChain(c: Code, loop: int, k: int) { exists n: nat :: Ancestor(c, loop, n) == k }

  lemma ChainStart(c: Code, loop: int)
    ensures OnChain(c, loop, loop)
  {
    assert Ancestor(c, loop, 0) == loop;
  }

  lemma ChainUp(c: Code, loop: int)
    requires 0 <= loop < |c.brkCont|
    ensures forall k {:trigger OnChain(c, loop, k)} :: OnChain(c, c.brkCont[loop].parent, k) ==> OnChain(c, loop, k)
  {
    forall k | OnChain(c, c.brkCont[loop].parent, k) ensures OnChain(c, loop, k) {
      var n: nat :| Ancestor(c, c.brkCont[loop].parent, n) == k;
      assert Ancestor(c, loop, n + 1) == k;
    }
  }

  /** A break ends at a loop around it. */
  lemma {:induction false} UnwindOnChain(c: Code, m: Store, trace: seq<Event>, loop: int, levels: int)
    ensures var at := Unwind(c, m, trace, loop, levels).0; 0 <= at < |c.brkCont| ==> OnChain(c, loop, at)
    decreases levels
  {
    ChainStart(c, loop);
    if 0 <= loop < |c.brkCont| && levels > 1 {
      var b := c.brkCont[loop].brk;
      var freed := if b < |c.ops| && IsFree(c.ops[b]) then trace + [RunEvent(m, c.ops[b])] else trace;
      UnwindOnChain(c, m, freed, c.brkCont[loop].parent, levels - 1);
      ChainUp(c, loop);
    }
  }

  /** Control can go from op p on to op q, other than by an exception. */
  ghost predicate Next(c: Code, p: nat, q: int)
    requires p < |c.ops|
  {
    match c.ops[p]
    case Jmp(t) => q == t
    case CondJmp(_, _, t) => q == t || q == p + 1
    case CondJmpEx(_, _, t, _) => q == t || q == p + 1
    case JmpZnz(_, z, n) => q == z || q == n
    case Brk(l, _) => exists k :: 0 <= k < |c.brkCont| && OnChain(c, l, k) && q == c.brkCont[k].brk
    case Cont(l, _) => exists k :: 0 <= k < |c.brkCont| && OnChain(c, l, k) && q == c.brkCont[k].cont
    case Return(_) => false
    case _ => q == p + 1
  }

  predicate FreesAt(c: Code, b: nat, t: nat) { b < |c.ops| && IsFree(c.ops[b]) && Uses(c.ops[b], t) }

  /** What op p reads: its operands and, for a break, the variables of the loops around it. */
  ghost predicate Reads(c: Code, p: nat, t: nat)
    requires p < |c.ops|
  {
    var op := c.ops[p];
    || Uses(op, t)
    || ((op.Brk? || op.Cont?)
          && exists k :: 0 <= k < |c.brkCont| && OnChain(c, op.loop, k) && FreesAt(c, c.brkCont[k].brk, t))
  }

  /** live[p] holds every temporary whose value may still be read when control is at op p. */
  ghost predicate Liveness(c: Code, live: seq<set<nat>>) {
    && |live| == |c.ops|
    && (forall p: nat, t: nat {:trigger Reads(c, p, t)} :: p < |c.ops| && Reads(c, p, t) ==> t in live[p])
    && (forall p: nat, q: nat, t: nat {:trigger Next(c, p, q), t in live[q]} :: p < |c.ops| && q < |c.ops| ==>
          Next(c, p, q) && t in live[q] ==> t in live[p] || Defines(c.ops[p], t))
    && (forall p: nat, t: nat {:trigger t in live[p]} ::
          p < |c.ops| && 0 <= Handler(c.tryCatch, p) < |c.ops| && c.ops[p].Exec? ==>
          t in live[Handler(c.tryCatch, p)] ==> t in live[p])
  }
}
