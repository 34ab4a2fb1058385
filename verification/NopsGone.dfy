/** Pass 10 once more: which ops go, and what every number in the op array becomes, said without the shift list. */
module NopsGone {
  import opened Machine
  import opened OpArrays
  import opened NopRemoval

  /** Op i goes: a NOP, or a JMP forward with nothing but NOPs before its target. */
  ghost predicate Goes(ops: seq<Op>, i: int)
    requires 0 <= i < |ops|
  {
    ops[i].Nop? || (ops[i].Jmp? && i < ops[i].target <= |ops| && forall k :: i < k < ops[i].target ==> ops[k].Nop?)
  }

  ghost function Staying(ops: seq<Op>, n: nat): set<int>
    requires n <= |ops|
  {
    set i | 0 <= i < n && !Goes(ops, i)
  }

  /** How many ops before op t stay. */
  ghost function Number(ops: seq<Op>, t: nat): nat
    requires t <= |ops|
  {
    |Staying(ops, t)|
  }

  /** b is a with the numbers of the ops it leads to. (The number of the next delayed declaration is another matter.) */
  ghost predicate Becomes(ops: seq<Op>, a: Op, b: Op)
    requires TargetsIn(a, |ops|)
  {
    match a
    case Jmp(t) => b == Jmp(Number(ops, t))
    case CondJmp(nz, x, t) => b == CondJmp(nz, x, Number(ops, t))
    case CondJmpEx(nz, x, t, r) => b == CondJmpEx(nz, x, Number(ops, t), r)
    case JmpZnz(x, z, n) => b == JmpZnz(x, Number(ops, z), Number(ops, n))
    case _ => SameButLink(b, a)
  }

  lemma {:induction false} NumberIs(ops: seq<Op>, t: nat)
    requires t <= |ops|
    ensures Before(Kill(ops), t) == Number(ops, t)
  {
    if t == 0 {
      assert Staying(ops, 0) == {};
    } else {
      NumberIs(ops, t - 1);
      var s := Staying(ops, t - 1);
      assert Staying(ops, t) == if Goes(ops, t - 1) then s else s + {t - 1};
      assert t - 1 !in s;
    }
  }

  lemma OpBecomes(c: Code, i: nat, b: Op)
    requires WellFormed(c) && i < |c.ops| && SameButLink(b, Retarget(Kill(c.ops), c.ops[i]))
    ensures TargetsIn(c.ops[i], |c.ops|) && Becomes(c.ops, c.ops[i], b)
  {
    assert TargetsIn(c.ops[i], |c.ops|);
    match c.ops[i]
    case Jmp(t) => NumberIs(c.ops, t);
    case CondJmp(_, _, t) => NumberIs(c.ops, t);
    case CondJmpEx(_, _, t, _) => NumberIs(c.ops, t);
    case JmpZnz(_, z, n) => NumberIs(c.ops, z); NumberIs(c.ops, n);
    case _ =>
  }

  /** Exactly the NOPs and the jumps over NOPs go. The others stay in order, and whatever was the number of an op is now
      the number of ops before it that stayed. */
  lemma OpsAreMoved(c: Code, outside: int -> nat, r: Code)
    requires WellFormed(c) && r == RemovedWith(c, outside)
    ensures |r.ops| == Number(c.ops, |c.ops|) && r.temps == c.temps
    ensures forall i: nat {:trigger c.ops[i]} :: i < |c.ops| && !Goes(c.ops, i) ==>
              (TargetsIn(c.ops[i], |c.ops|) && Number(c.ops, i) < |r.ops|
               && Becomes(c.ops, c.ops[i], r.ops[Number(c.ops, i)]))
  {
    var keep := Kill(c.ops);
    KillIsReady(c);
    CompactedMoved(c, keep);
    RemovedSameStarts(c, outside);
    NumberIs(c.ops, |c.ops|);
    forall i: nat {:trigger c.ops[i]} | i < |c.ops| && !Goes(c.ops, i)
      ensures TargetsIn(c.ops[i], |c.ops|) && Number(c.ops, i) < |r.ops|
      ensures Becomes(c.ops, c.ops[i], r.ops[Number(c.ops, i)])
    {
      assert keep[i] == c.ops[i];
      NumberIs(c.ops, i);
      OpBecomes(c, i, r.ops[Number(c.ops, i)]);
    }
  }

  ghost predicate LoopMoved(ops: seq<Op>, a: BrkCont, b: BrkCont)
    requires a.cont < |ops| && a.brk < |ops|
  {
    && b.cont == Number(ops, a.cont) && b.brk == Number(ops, a.brk) && b.parent == a.parent
    && (0 <= a.start < |ops| ==> b.start == Number(ops, a.start))
  }

  lemma LoopIsMoved(c: Code, outside: int -> nat, r: Code, i: nat)
    requires WellFormed(c) && r == RemovedWith(c, outside) && i < |c.brkCont|
    ensures |r.brkCont| == |c.brkCont| && c.brkCont[i].cont < |c.ops| && c.brkCont[i].brk < |c.ops|
    ensures LoopMoved(c.ops, c.brkCont[i], r.brkCont[i])
  {
    var keep := Kill(c.ops);
    KillIsReady(c);
    CompactedMoved(c, keep);
    RemovedSameStarts(c, outside);
    NumberIs(c.ops, c.brkCont[i].cont);
    NumberIs(c.ops, c.brkCont[i].brk);
    if 0 <= c.brkCont[i].start < |c.ops| {
      NumberIs(c.ops, c.brkCont[i].start);
      if NoneToRemove(c) {
        NothingRemoved(keep, c.brkCont[i].start);
      }
    }
  }

  lemma TryIsMoved(c: Code, outside: int -> nat, r: Code, i: nat)
    requires WellFormed(c) && r == RemovedWith(c, outside) && i < |c.tryCatch|
    ensures |r.tryCatch| == |c.tryCatch| && c.tryCatch[i].tryOp < |c.ops| && c.tryCatch[i].catchOp < |c.ops|
    ensures r.tryCatch[i] == TryCatch(Number(c.ops, c.tryCatch[i].tryOp), Number(c.ops, c.tryCatch[i].catchOp))
  {
    KillIsReady(c);
    CompactedMoved(c, Kill(c.ops));
    RemovedSameStarts(c, outside);
    NumberIs(c.ops, c.tryCatch[i].tryOp);
    NumberIs(c.ops, c.tryCatch[i].catchOp);
  }

  /** l with every number moved. */
  ghost predicate ListMoved(ops: seq<Op>, l: seq<int>, m: seq<int>) {
    && |m| == |l|
    && forall i {:trigger l[i]} {:trigger m[i]} :: 0 <= i < |l| ==> 0 <= l[i] < |ops| && m[i] == Number(ops, l[i])
  }

  lemma {:induction false} ListInside(ops: seq<Op>, first: int, l: seq<int>, i: nat)
    requires IsBindingList(ops, first, l) && i < |l|
    ensures 0 <= l[i] < |ops|
    decreases i
  {
    if i > 0 {
      ListInside(ops, ops[first].result.next, l[1..], i - 1);
      assert l[i] == l[1..][i - 1];
    }
  }

  /** The list of delayed declarations holds the same declarations in the same order, under their new numbers. */
  lemma BindingsAreMoved(c: Code, outside: int -> nat, r: Code) returns (l: seq<int>, m: seq<int>)
    requires WellFormed(c) && LinksForward(c.ops, c.earlyBinding) && r == RemovedWith(c, outside)
    ensures IsBindingList(c.ops, c.earlyBinding, l) && IsBindingList(r.ops, r.earlyBinding, m) && ListMoved(c.ops, l, m)
  {
    var keep := Kill(c.ops);
    EarlyBindingMoved(c);
    BindingListIs(c.ops, c.earlyBinding);
    l := BindingList(c.ops, c.earlyBinding);
    m := MoveAll(keep, l);
    forall i: nat | i < |l| ensures 0 <= l[i] < |c.ops| && m[i] == Number(c.ops, l[i]) {
      ListInside(c.ops, c.earlyBinding, l, i);
      NumberIs(c.ops, l[i]);
    }
    assert r.ops == Removed(c).ops && r.earlyBinding == Removed(c).earlyBinding;
  }
}
