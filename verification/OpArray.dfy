/** The op array as the passes see it: a mutable object over the code of Machine. */
module OpArrays {
  import opened Machine

  class OpArray {
    var opcodes: array<Op>
    var last: nat
    var brkCont: array<BrkCont>
    var tryCatch: array<TryCatch>
    var earlyBinding: int
    var temps: nat

    ghost predicate Valid() reads this { last <= opcodes.Length }

    ghost function View(): Code
      reads this, opcodes, brkCont, tryCatch
      requires Valid()
    {
      Code(opcodes[..last], brkCont[..], tryCatch[..], earlyBinding, temps)
    }
  }

  /** Every op number the op holds is that of an op. */
  predicate TargetsIn(op: Op, n: nat) {
    match op
    case Jmp(t) => t < n
    case CondJmp(_, _, t) => t < n
    case CondJmpEx(_, _, t, _) => t < n
    case JmpZnz(_, z, x) => z < n && x < n
    case _ => true
  }

  /** Jump targets and table entries are op numbers, and control cannot run off the end. */
  ghost predicate WellFormed(c: Code) {
    && 0 < |c.ops|
    && Exits(c.ops[|c.ops| - 1])
    && (forall i :: 0 <= i < |c.ops| ==> TargetsIn(c.ops[i], |c.ops|))
    && (forall i :: 0 <= i < |c.brkCont| ==> c.brkCont[i].brk < |c.ops| && c.brkCont[i].cont < |c.ops|)
    && (forall i :: 0 <= i < |c.tryCatch| ==> c.tryCatch[i].tryOp < |c.ops| && c.tryCatch[i].catchOp < |c.ops|)
  }
}
