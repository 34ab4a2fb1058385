/** Pass 3: threading of JMP, JMPZ/JMPNZ and JMPZNZ through chains of jumps, with a hit list that
    stops it on cycles. */
module Pass3 {
  import opened Machine
  import opened OpArrays
  import opened Rewrite

  /** The two places a jump can hold a target in: op1 or op2, and extended_value of JMPZNZ. */
  datatype Slot = Main | Ext

  predicate Jumps(op: Op) { op.Jmp? || op.CondJmp? || op.JmpZnz? }

  function Target(op: Op, slot: Slot): nat
    requires Jumps(op)
  {
    match op
    case Jmp(t) => t
    case CondJmp(_, _, t) => t
    case JmpZnz(_, z, n) => if slot.Main? then z else n
  }

  function WithTarget(op: Op, slot: Slot, t: nat): Op
    requires Jumps(op)
  {
    match op
    case Jmp(_) => Jmp(t)
    case CondJmp(nz, x, _) => CondJmp(nz, x, t)
    case JmpZnz(x, z, n) => if slot.Main? then JmpZnz(x, t, n) else JmpZnz(x, z, t)
  }

  predicate SameVar(a: Operand, b: Operand) {
    ((a.Tmp? && b.Tmp?) || (a.Var? && b.Var?)) && a.n == b.n
  }

  /** What the op at the target lets the jump do. */
  datatype Hop = Stay | Through(next: nat) | Past

  function HopOf(op: Op, at: Op): Hop {
    if at.Jmp? then Through(at.target)
    else if op.CondJmp? && at.CondJmp? && SameVar(op.cond, at.cond) then
      if at.nz == op.nz then Through(at.target) else Past
    else Stay
  }

  /** Follow the targets of op i until none can be skipped or the next is on the hit list. */
  function Thread(ops: seq<Op>, i: nat, slot: Slot, hits: seq<nat>): (r: (seq<Op>, seq<nat>))
    requires i < |ops| && Jumps(ops[i])
    ensures |r.0| == |ops| && Jumps(r.0[i])
    decreases |ops| - |hits|
  {
    var t := Target(ops[i], slot);
    if t >= |ops| then (ops, hits)
    else match HopOf(ops[i], ops[t])
      case Stay => (ops, hits)
      case Past => (ops[i := WithTarget(ops[i], slot, t + 1)], hits)
      case Through(u) =>
        if u in hits || |hits| >= |ops| then (ops, hits)
        else Thread(ops[i := WithTarget(ops[i], slot, u)], i, slot, hits + [u])
  }

  function Optimize(ops: seq<Op>, i: nat): (r: seq<Op>)
    requires i < |ops|
    ensures |r| == |ops|
  {
    match ops[i]
    case Jmp(t) => if t == i + 1 then ops[i := Nop] else Thread(ops, i, Main, []).0
    case CondJmp(_, _, t) => if t == i + 1 then ops[i := Nop] else Thread(ops, i, Main, []).0
    case JmpZnz(_, _, _) =>
      var (first, hits) := Thread(ops, i, Main, []);
      Thread(first, i, Ext, hits).0
    case _ => ops
  }

  function OptimizeFrom(ops: seq<Op>, i: nat): (r: seq<Op>)
    requires i <= |ops|
    ensures |r| == |ops|
    decreases |ops| - i
  {
    if i == |ops| then ops else OptimizeFrom(Optimize(ops, i), i + 1)
  }

  function Threaded(c: Code): Code { c.(ops := OptimizeFrom(c.ops, 0)) }

  // ---- every rewrite is a shortcut

  lemma HopReplaces(env: Env, c: Code, i: nat, slot: Slot)
    requires i < |c.ops| && Jumps(c.ops[i]) && Target(c.ops[i], slot) < |c.ops|
    requires !HopOf(c.ops[i], c.ops[Target(c.ops[i], slot)]).Stay?
    ensures var t := Target(c.ops[i], slot);
      var hop := HopOf(c.ops[i], c.ops[t]);
      var u := if hop.Through? then hop.next else t + 1;
      Replaces(env, c, i, WithTarget(c.ops[i], slot, u))
  {
    var op := c.ops[i];
    var t := Target(op, slot);
    var hop := HopOf(op, c.ops[t]);
    var u := if hop.Through? then hop.next else t + 1;
    var op' := WithTarget(op, slot, u);
    forall s: State {:trigger StepOp(env, Put(c, i, op'), op', s)} | !s.done && s.pc == i
      ensures Follows(env, c, s, StepOp(env, Put(c, i, op'), op', s))
    {
      OneStep(env, c, s);
      TwoSteps(env, c, s);
      var v := Step(env, c, s);
      assert v == StepOp(env, c, op, s);
      if v.pc == t {
        assert Step(env, c, v) == StepOp(env, c, c.ops[t], v);
      }
    }
  }

  lemma NextReplaces(env: Env, c: Code, i: nat)
    requires i < |c.ops| && (c.ops[i].Jmp? || c.ops[i].CondJmp?) && c.ops[i].target == i + 1
    ensures Replaces(env, c, i, Nop)
  {
    forall s: State {:trigger StepOp(env, Put(c, i, Nop), Nop, s)} | !s.done && s.pc == i
      ensures Follows(env, c, s, StepOp(env, Put(c, i, Nop), Nop, s))
    {
      OneStep(env, c, s);
    }
  }

  function On(c: Code, ops: seq<Op>): Code { c.(ops := ops) }

  lemma {:induction false} ThreadPreserves(env: Env, c: Code, i: nat, slot: Slot, hits: seq<nat>)
    requires i < |c.ops| && Jumps(c.ops[i])
    ensures Runs(env, On(c, Thread(c.ops, i, slot, hits).0)) == Runs(env, c)
    decreases |c.ops| - |hits|
  {
    var t := Target(c.ops[i], slot);
    if t < |c.ops| && !HopOf(c.ops[i], c.ops[t]).Stay? {
      HopReplaces(env, c, i, slot);
      match HopOf(c.ops[i], c.ops[t])
      case Past => PutPreserves(env, c, i, WithTarget(c.ops[i], slot, t + 1));
      case Through(u) =>
        if u !in hits && |hits| < |c.ops| {
          var op := WithTarget(c.ops[i], slot, u);
          PutPreserves(env, c, i, op);
          ThreadPreserves(env, Put(c, i, op), i, slot, hits + [u]);
        }
    }
  }

  lemma OptimizePreserves(env: Env, c: Code, i: nat)
    requires i < |c.ops|
    ensures Runs(env, On(c, Optimize(c.ops, i))) == Runs(env, c)
  {
    var op := c.ops[i];
    if (op.Jmp? || op.CondJmp?) && op.target == i + 1 {
      NextReplaces(env, c, i);
      PutPreserves(env, c, i, Nop);
    } else if Jumps(op) {
      ThreadPreserves(env, c, i, Main, []);
      if op.JmpZnz? {
        var (first, hits) := Thread(c.ops, i, Main, []);
        ThreadPreserves(env, On(c, first), i, Ext, hits);
      }
    }
  }

  lemma {:induction false} OptimizeFromPreserves(env: Env, c: Code, i: nat)
    requires i <= |c.ops|
    ensures Runs(env, On(c, OptimizeFrom(c.ops, i))) == Runs(env, c)
    decreases |c.ops| - i
  {
    if i < |c.ops| {
      OptimizePreserves(env, c, i);
      OptimizeFromPreserves(env, On(c, Optimize(c.ops, i)), i + 1);
    }
  }

  /** Threading the jumps of any code, even around cycles of jumps, changes nothing that can be seen. */
  lemma ThreadedPreserves(env: Env, c: Code)
    ensures Runs(env, Threaded(c)) == Runs(env, c)
  {
    OptimizeFromPreserves(env, c, 0);
  }

  // ---- the hit list never overflows

  /** Distinct op numbers: what the hit list holds. */
  ghost predicate HitList(hits: seq<nat>, n: nat) {
    (forall k :: 0 <= k < |hits| ==> hits[k] < n) && forall j, k :: 0 <= j < k < |hits| ==> hits[j] != hits[k]
  }

  lemma {:induction false} DistinctFit(s: set<nat>, n: nat)
    requires forall x :: x in s ==> x < n
    ensures |s| <= n
  {
    if n > 0 {
      DistinctFit(s - {n - 1}, n - 1);
      assert s <= (s - {n - 1}) + {n - 1};
    } else {
      assert s == {};
    }
  }

  function Elements(hits: seq<nat>): set<nat> { set k | 0 <= k < |hits| :: hits[k] }

  lemma {:induction false} DistinctCount(hits: seq<nat>, n: nat)
    requires HitList(hits, n)
    ensures |Elements(hits)| == |hits|
  {
    if hits != [] {
      var m := |hits| - 1;
      DistinctCount(hits[..m], n);
      assert Elements(hits) == Elements(hits[..m]) + {hits[m]};
      assert hits[m] !in Elements(hits[..m]);
    }
  }

  /** A hit list without u still has room for u. */
  lemma RoomFor(hits: seq<nat>, u: nat, n: nat)
    requires HitList(hits, n) && u < n && u !in hits
    ensures |hits| < n
  {
    var more := hits + [u];
    assert HitList(more, n);
    DistinctCount(more, n);
    DistinctFit(Elements(more), n);
  }

  // ---- what threading achieves

  /** Having jumped to at, control goes on to the target of at: a JMP, or the same test of the same variable. */
  predicate Ahead(jump: Op, at: Op) { at.Jmp? || (SameTest(jump, at) && at.nz == jump.nz) }

  /** The opposite test of the same variable: control goes on behind at. */
  predicate Beyond(jump: Op, at: Op) { SameTest(jump, at) && at.nz != jump.nz }

  predicate SameTest(jump: Op, at: Op) {
    jump.CondJmp? && at.CondJmp? && (jump.cond.Tmp? || jump.cond.Var?) && at.cond == jump.cond
  }

  /** Having jumped to op t, control is at op end after exactly k more jumps that were decided by then. */
  ghost predicate ChainEnds(jump: Op, ops: seq<Op>, t: nat, k: nat, end: nat)
    decreases k
  {
    if t < |ops| && Ahead(jump, ops[t]) then k > 0 && ChainEnds(jump, ops, ops[t].target, k - 1, end)
    else k == 0 && end == if t < |ops| && Beyond(jump, ops[t]) then t + 1 else t
  }

  lemma {:induction false} ChainUnique(jump: Op, ops: seq<Op>, t: nat, k: nat, end: nat, k': nat, end': nat)
    requires ChainEnds(jump, ops, t, k, end) && ChainEnds(jump, ops, t, k', end')
    ensures k == k' && end == end'
    decreases k
  {
    if k > 0 && k' > 0 {
      ChainUnique(jump, ops, ops[t].target, k - 1, end, k' - 1, end');
    }
  }

  predicate Alike(jump: Op, a: Op, b: Op) { Ahead(jump, a) == Ahead(jump, b) && Beyond(jump, a) == Beyond(jump, b) }

  /** Op i is the jump that is threaded, whatever its targets are by now. */
  predicate SameSort(jump: Op, op: Op) {
    match op
    case Jmp(_) => jump.Jmp?
    case CondJmp(nz, x, _) => jump.CondJmp? && jump.nz == nz && jump.cond == x
    case JmpZnz(_, _, _) => jump.JmpZnz?
    case _ => false
  }

  /** The same, never passing op i. */
  ghost predicate ChainAvoids(jump: Op, ops: seq<Op>, i: nat, t: nat, k: nat, end: nat)
    decreases k
  {
    if t < |ops| && Ahead(jump, ops[t]) then t != i && k > 0 && ChainAvoids(jump, ops, i, ops[t].target, k - 1, end)
    else k == 0 && end == if t < |ops| && Beyond(jump, ops[t]) then t + 1 else t
  }

  lemma {:induction false} AvoidsItself(jump: Op, ops: seq<Op>, i: nat, t: nat, j: nat, k: nat, end: nat)
    requires i < |ops| && j <= k && ChainEnds(jump, ops, t, j, end)
    requires Ahead(jump, ops[i]) ==> ChainEnds(jump, ops, ops[i].target, k, end)
    ensures ChainAvoids(jump, ops, i, t, j, end)
    decreases j
  {
    if t < |ops| && Ahead(jump, ops[t]) {
      if t == i {
        ChainUnique(jump, ops, ops[i].target, j - 1, end, k, end);
      }
      AvoidsItself(jump, ops, i, ops[t].target, j - 1, k, end);
    }
  }

  lemma {:induction false} AvoidsPut(jump: Op, ops: seq<Op>, i: nat, op: Op, t: nat, k: nat, end: nat)
    requires i < |ops| && ChainAvoids(jump, ops, i, t, k, end) && Alike(jump, op, ops[i])
    ensures ChainAvoids(jump, ops[i := op], i, t, k, end)
    decreases k
  {
    if k > 0 {
      AvoidsPut(jump, ops, i, op, ops[t].target, k - 1, end);
    }
  }

  lemma {:induction false} AvoidsUnique(jump: Op, ops: seq<Op>, i: nat, t: nat, k: nat, end: nat, k': nat)
    requires ChainAvoids(jump, ops, i, t, k, end) && ChainAvoids(jump, ops, i, t, k', end)
    ensures k == k'
    decreases k
  {
    if k > 0 && k' > 0 {
      AvoidsUnique(jump, ops, i, ops[t].target, k - 1, end, k' - 1);
    }
  }

  ghost predicate Behind(jump: Op, ops: seq<Op>, i: nat, h: nat, k: nat, end: nat) {
    exists k': nat :: k' >= k && ChainAvoids(jump, ops, i, h, k', end)
  }

  /** The ops the chain of k JMPs from t leads to. */
  function Visited(jump: Op, ops: seq<Op>, t: nat, k: nat): seq<nat>
    decreases k
  {
    if k > 0 && t < |ops| && Ahead(jump, ops[t]) then [ops[t].target] + Visited(jump, ops, ops[t].target, k - 1) else []
  }

  /** One of them is on the hit list. */
  ghost predicate Touches(jump: Op, ops: seq<Op>, t: nat, k: nat, hits: seq<nat>) {
    exists u :: u in Visited(jump, ops, t, k) && u in hits
  }

  lemma {:induction false} VisitedPut(jump: Op, ops: seq<Op>, i: nat, op: Op, t: nat, k: nat, end: nat)
    requires i < |ops| && ChainAvoids(jump, ops, i, t, k, end) && Alike(jump, op, ops[i])
    ensures Visited(jump, ops[i := op], t, k) == Visited(jump, ops, t, k)
    decreases k
  {
    if k > 0 {
      VisitedPut(jump, ops, i, op, ops[t].target, k - 1, end);
    }
  }

  lemma {:induction false} EndIsNoJump(jump: Op, ops: seq<Op>, i: nat, t: nat, k: nat, end: nat)
    requires ChainAvoids(jump, ops, i, t, k, end) && !jump.CondJmp?
    ensures !(end < |ops| && ops[end].Jmp?)
    decreases k
  {
    if k > 0 {
      EndIsNoJump(jump, ops, i, ops[t].target, k - 1, end);
    }
  }

  lemma BehindPut(jump: Op, ops: seq<Op>, i: nat, op: Op, u: nat, rest: seq<nat>, k: nat, end: nat)
    requires i < |ops| && Alike(jump, op, ops[i]) && k > 0 && ChainAvoids(jump, ops, i, u, k - 1, end)
    requires forall h :: h in rest ==> Behind(jump, ops, i, h, k, end)
    ensures forall h :: h in rest + [u] ==> Behind(jump, ops[i := op], i, h, k - 1, end)
  {
    forall h | h in rest + [u] ensures Behind(jump, ops[i := op], i, h, k - 1, end) {
      if h in rest {
        var k': nat :| k' >= k && ChainAvoids(jump, ops, i, h, k', end);
        AvoidsPut(jump, ops, i, op, h, k', end);
      } else {
        AvoidsPut(jump, ops, i, op, u, k - 1, end);
      }
    }
  }

  /** Ops that have been followed already are not met again on a chain that ends. */
  lemma NotMetAgain(jump: Op, ops: seq<Op>, i: nat, u: nat, rest: seq<nat>, k: nat, end: nat)
    requires k > 0 && ChainAvoids(jump, ops, i, u, k - 1, end)
    requires forall h :: h in rest ==> Behind(jump, ops, i, h, k, end)
    ensures u !in rest
  {
    if u in rest {
      var k': nat :| k' >= k && ChainAvoids(jump, ops, i, u, k', end);
      AvoidsUnique(jump, ops, i, u, k', end, k - 1);
    }
  }

  /** One hop along such a chain: it is made unless the next op is on the hit list. */
  lemma HopMade(jump: Op, ops: seq<Op>, i: nat, slot: Slot, hits: seq<nat>, k: nat, end: nat)
    requires i < |ops| && SameSort(jump, ops[i]) && HitList(hits, |ops|) && k > 0
    requires forall j :: 0 <= j < |ops| ==> TargetsIn(ops[j], |ops|)
    requires ChainAvoids(jump, ops, i, Target(ops[i], slot), k, end)
    ensures var t := Target(ops[i], slot);
      && t < |ops| && Ahead(jump, ops[t]) && ops[t].target < |ops|
      && ChainAvoids(jump, ops, i, ops[t].target, k - 1, end)
      && Thread(ops, i, slot, hits) == if ops[t].target in hits then (ops, hits)
           else Thread(ops[i := WithTarget(ops[i], slot, ops[t].target)], i, slot, hits + [ops[t].target])
  {
    var t := Target(ops[i], slot);
    assert TargetsIn(ops[i], |ops|);
    assert TargetsIn(ops[t], |ops|);
    if ops[t].target !in hits {
      RoomFor(hits, ops[t].target, |ops|);
    }
  }

  /** Threading follows a chain to its end, unless an op on it was on the hit list from before. */
  lemma {:induction false} ThreadFollows(jump: Op, ops: seq<Op>, i: nat, slot: Slot, first: seq<nat>, rest: seq<nat>,
          k: nat, end: nat)
    requires i < |ops| && SameSort(jump, ops[i]) && HitList(first + rest, |ops|) && (jump.CondJmp? ==> first == [])
    requires forall j :: 0 <= j < |ops| ==> TargetsIn(ops[j], |ops|)
    requires ChainAvoids(jump, ops, i, Target(ops[i], slot), k, end)
    requires forall h :: h in rest ==> Behind(jump, ops, i, h, k, end)
    ensures var r, t := Thread(ops, i, slot, first + rest), Target(ops[i], slot);
      && (Target(r.0[i], slot) == end <==> !Touches(jump, ops, t, k, first))
      && (!Touches(jump, ops, t, k, first) ==> r.1 == first + rest + Visited(jump, ops, t, k))
    decreases k
  {
    var t := Target(ops[i], slot);
    if k > 0 {
      HopMade(jump, ops, i, slot, first + rest, k, end);
      var u := ops[t].target;
      NotMetAgain(jump, ops, i, u, rest, k, end);
      var more := Visited(jump, ops, u, k - 1);
      assert Visited(jump, ops, t, k) == [u] + more;
      if u in first {
        assert u in Visited(jump, ops, t, k);
        EndIsNoJump(jump, ops, i, t, k, end);
      } else {
        var op := WithTarget(ops[i], slot, u);
        AvoidsPut(jump, ops, i, op, u, k - 1, end);
        VisitedPut(jump, ops, i, op, u, k - 1, end);
        BehindPut(jump, ops, i, op, u, rest, k, end);
        assert first + rest + [u] == first + (rest + [u]);
        ThreadFollows(jump, ops[i := op], i, slot, first, rest + [u], k - 1, end);
        assert Touches(jump, ops, t, k, first) <==> Touches(jump, ops[i := op], u, k - 1, first);
      }
    } else {
      assert Visited(jump, ops, t, k) == [];
    }
  }

  /** A jump at the head of a chain that ends is made to point straight at its end. */
  lemma ThreadReachesEnd(ops: seq<Op>, i: nat, slot: Slot, k: nat, end: nat)
    requires i < |ops| && Jumps(ops[i]) && forall j :: 0 <= j < |ops| ==> TargetsIn(ops[j], |ops|)
    requires ChainEnds(ops[i], ops, Target(ops[i], slot), k, end) && (!ops[i].JmpZnz? ==> slot.Main?)
    ensures Target(Thread(ops, i, slot, []).0[i], slot) == end
    ensures Thread(ops, i, slot, []).1 == Visited(ops[i], ops, Target(ops[i], slot), k)
  {
    AvoidsItself(ops[i], ops, i, Target(ops[i], slot), k, k, end);
    ThreadFollows(ops[i], ops, i, slot, [], [], k, end);
    assert [] + [] + Visited(ops[i], ops, Target(ops[i], slot), k) == Visited(ops[i], ops, Target(ops[i], slot), k);
  }

  /** Threading changes one target of one op. */
  lemma {:induction false} ThreadChanges(ops: seq<Op>, i: nat, slot: Slot, hits: seq<nat>)
    requires i < |ops| && Jumps(ops[i])
    ensures var r := Thread(ops, i, slot, hits).0; r == ops[i := WithTarget(ops[i], slot, Target(r[i], slot))]
    decreases |ops| - |hits|
  {
    var t := Target(ops[i], slot);
    assert ops == ops[i := ops[i]];
    if t < |ops| {
      match HopOf(ops[i], ops[t])
      case Stay =>
      case Past =>
      case Through(u) =>
        if u !in hits && |hits| < |ops| {
          ThreadChanges(ops[i := WithTarget(ops[i], slot, u)], i, slot, hits + [u]);
        }
    }
  }

  lemma {:induction false} EndsPut(jump: Op, ops: seq<Op>, i: nat, op: Op, t: nat, k: nat, end: nat)
    requires i < |ops| && ChainEnds(jump, ops, t, k, end) && Alike(jump, op, ops[i]) && !Ahead(jump, op)
    ensures ChainEnds(jump, ops[i := op], t, k, end) && Visited(jump, ops[i := op], t, k) == Visited(jump, ops, t, k)
    decreases k
  {
    if k > 0 {
      EndsPut(jump, ops, i, op, ops[t].target, k - 1, end);
    }
  }

  lemma {:induction false} VisitedDistinct(ops: seq<Op>, i: nat, hits: seq<nat>)
    requires i < |ops| && Jumps(ops[i]) && HitList(hits, |ops|)
    requires forall j :: 0 <= j < |ops| ==> TargetsIn(ops[j], |ops|)
    ensures HitList(Thread(ops, i, Main, hits).1, |ops|)
    decreases |ops| - |hits|
  {
    var t := Target(ops[i], Main);
    if t < |ops| && HopOf(ops[i], ops[t]).Through? {
      var u := HopOf(ops[i], ops[t]).next;
      assert TargetsIn(ops[t], |ops|) && u < |ops|;
      if u !in hits && |hits| < |ops| {
        var op := WithTarget(ops[i], Main, u);
        assert TargetsIn(ops[i], |ops|) && TargetsIn(op, |ops|);
        VisitedDistinct(ops[i := op], i, hits + [u]);
      }
    }
  }

  /** Both ways of a JMPZNZ at the heads of chains of JMPs that end: the first is made to point straight at its end; the
      second starts with the hit list of the first, so it is just when its chain leads to no op that the chain of the
      first has led to. */
  lemma ZnzReachesEnds(ops: seq<Op>, i: nat, k: nat, end: nat, m: nat, far: nat)
    requires i < |ops| && ops[i].JmpZnz? && forall j :: 0 <= j < |ops| ==> TargetsIn(ops[j], |ops|)
    requires ChainEnds(ops[i], ops, Target(ops[i], Main), k, end) && ChainEnds(ops[i], ops, Target(ops[i], Ext), m, far)
    ensures var r := Optimize(ops, i)[i];
      && r.JmpZnz? && Target(r, Main) == end
      && (Target(r, Ext) == far <==>
            !Touches(ops[i], ops, Target(ops[i], Ext), m, Visited(ops[i], ops, Target(ops[i], Main), k)))
  {
    var (first, hits) := Thread(ops, i, Main, []);
    ThreadReachesEnd(ops, i, Main, k, end);
    ThreadChanges(ops, i, Main, []);
    VisitedDistinct(ops, i, []);
    EndInRange(ops[i], ops, Target(ops[i], Main), k, end);
    SecondReachesEnd(ops, i, first, hits, end, m, far);
    ThreadChanges(first, i, Ext, hits);
  }

  lemma {:induction false} EndInRange(jump: Op, ops: seq<Op>, t: nat, k: nat, end: nat)
    requires ChainEnds(jump, ops, t, k, end) && !jump.CondJmp? && t < |ops|
    requires forall j :: 0 <= j < |ops| ==> TargetsIn(ops[j], |ops|)
    ensures end < |ops|
    decreases k
  {
    if k > 0 {
      assert TargetsIn(ops[t], |ops|);
      EndInRange(jump, ops, ops[t].target, k - 1, end);
    }
  }

  lemma SecondReachesEnd(ops: seq<Op>, i: nat, first: seq<Op>, hits: seq<nat>, end: nat, m: nat, far: nat)
    requires i < |ops| && ops[i].JmpZnz? && forall j :: 0 <= j < |ops| ==> TargetsIn(ops[j], |ops|)
    requires end < |ops| && first == ops[i := WithTarget(ops[i], Main, end)] && HitList(hits, |ops|)
    requires ChainEnds(ops[i], ops, Target(ops[i], Ext), m, far)
    ensures Target(Thread(first, i, Ext, hits).0[i], Ext) == far <==>
            !Touches(ops[i], ops, Target(ops[i], Ext), m, hits)
  {
    assert TargetsIn(ops[i], |ops|);
    EndsPut(ops[i], ops, i, first[i], Target(ops[i], Ext), m, far);
    AvoidsItself(ops[i], first, i, Target(first[i], Ext), m, m, far);
    assert hits + [] == hits;
    ThreadFollows(ops[i], first, i, Ext, hits, [], m, far);
  }

  /** JMPZNZ(X, 1, 1); JMP 2; RETURN: only the first way is threaded. */
  lemma SecondWayStays(x: Operand)
    ensures var ops := [JmpZnz(x, 1, 1), Jmp(2), Return(x)]; Optimize(ops, 0)[0] == JmpZnz(x, 2, 1)
  {
    var ops := [JmpZnz(x, 1, 1), Jmp(2), Return(x)];
    assert Visited(ops[0], ops, 1, 1) == [2];
    assert TargetsIn(ops[0], 3) && TargetsIn(ops[1], 3) && TargetsIn(ops[2], 3);
    ThreadReachesEnd(ops, 0, Main, 1, 2);
    var first := ops[0 := JmpZnz(x, 2, 1)];
    ThreadChanges(ops, 0, Main, []);
    assert Thread(first, 0, Ext, [2]) == (first, [2]);
  }

  /** The turn of a JMP, JMPZ or JMPNZ: one to the next op disappears, any other at the head of a chain that ends is
      led to its end, past all tests that its own has decided; nothing else changes. */
  lemma TurnReachesEnd(ops: seq<Op>, i: nat, k: nat, end: nat)
    requires i < |ops| && (ops[i].Jmp? || ops[i].CondJmp?) && forall j :: 0 <= j < |ops| ==> TargetsIn(ops[j], |ops|)
    requires ChainEnds(ops[i], ops, ops[i].target, k, end)
    ensures Optimize(ops, i) == ops[i := if ops[i].target == i + 1 then Nop else WithTarget(ops[i], Main, end)]
  {
    if ops[i].target != i + 1 {
      ThreadReachesEnd(ops, i, Main, k, end);
      ThreadChanges(ops, i, Main, []);
    }
  }

  /** JMPZ(T, 1); JMPNZ(T, 0); RETURN: the jump is led past the second test, which it has decided. */
  lemma PastATest(n: nat)
    ensures var ops := [Nop, CondJmp(false, Tmp(n), 3), Return(Tmp(n)), CondJmp(true, Tmp(n), 0), Return(Tmp(n))];
      Optimize(ops, 1)[1] == CondJmp(false, Tmp(n), 4)
  {
    var ops := [Nop, CondJmp(false, Tmp(n), 3), Return(Tmp(n)), CondJmp(true, Tmp(n), 0), Return(Tmp(n))];
    assert ChainEnds(ops[1], ops, 3, 0, 4);
    TurnReachesEnd(ops, 1, 0, 4);
  }

  // ---- every op has its turn

  function AfterTurns(ops: seq<Op>, n: nat): (r: seq<Op>)
    requires n <= |ops|
    ensures |r| == |ops|
  {
    if n == 0 then ops else Optimize(AfterTurns(ops, n - 1), n - 1)
  }

  lemma TurnChangesOne(ops: seq<Op>, i: nat, k: nat)
    requires i < |ops| && k < |ops| && k != i
    ensures Optimize(ops, i)[k] == ops[k]
  {
    if Jumps(ops[i]) {
      ThreadChanges(ops, i, Main, []);
      if ops[i].JmpZnz? {
        var (first, hits) := Thread(ops, i, Main, []);
        ThreadChanges(first, i, Ext, hits);
      }
    }
  }

  lemma {:induction false} TurnsFrom(ops: seq<Op>, i: nat)
    requires i <= |ops|
    ensures OptimizeFrom(AfterTurns(ops, i), i) == AfterTurns(ops, |ops|)
    decreases |ops| - i
  {
    if i < |ops| {
      assert AfterTurns(ops, i + 1) == Optimize(AfterTurns(ops, i), i);
      TurnsFrom(ops, i + 1);
    }
  }

  lemma {:induction false} TurnsBefore(ops: seq<Op>, n: nat, i: nat)
    requires n <= i < |ops|
    ensures AfterTurns(ops, n)[i] == ops[i]
  {
    if n > 0 {
      TurnsBefore(ops, n - 1, i);
      TurnChangesOne(AfterTurns(ops, n - 1), n - 1, i);
    }
  }

  lemma {:induction false} TurnsAfter(ops: seq<Op>, n: nat, i: nat)
    requires i < n <= |ops|
    ensures AfterTurns(ops, n)[i] == Optimize(AfterTurns(ops, i), i)[i]
    decreases n
  {
    if n > i + 1 {
      TurnsAfter(ops, n - 1, i);
      TurnChangesOne(AfterTurns(ops, n - 1), n - 1, i);
    }
  }

  /** The pass gives every op one turn, in order: when it comes, the op is still what it was, those before it are what
      they will be, and what it then becomes it stays. */
  lemma OneTurnEach(c: Code, i: nat, before: seq<Op>)
    requires i < |c.ops| && before == AfterTurns(c.ops, i)
    ensures |Threaded(c).ops| == |c.ops| && Threaded(c).ops[i] == Optimize(before, i)[i]
    ensures before[i..] == c.ops[i..] && before[..i] == Threaded(c).ops[..i]
  {
    TurnsFrom(c.ops, 0);
    TurnsAfter(c.ops, |c.ops|, i);
    forall k | i <= k < |c.ops| ensures before[k] == c.ops[k] {
      TurnsBefore(c.ops, i, k);
    }
    forall k | 0 <= k < i ensures before[k] == Threaded(c).ops[k] {
      TurnsAfter(c.ops, |c.ops|, k);
      TurnsAfter(c.ops, i, k);
    }
  }

  // ---- the pass itself, in place

  ghost predicate InRange(ops: array<Op>, last: nat)
    reads ops
  {
    && last <= ops.Length
    && (forall j {:trigger ops[j]} :: 0 <= j < last ==> TargetsIn(ops[j], last))
    && (0 < last ==> Exits(ops[last - 1]))
  }

  method IsHit(hitlist: array<nat>, count: nat, u: nat) returns (hit: bool)
    requires count <= hitlist.Length
    ensures hit <==> u in hitlist[..count]
  {
    for k := 0 to count
      invariant u !in hitlist[..k]
    {
      if hitlist[k] == u {
        return true;
      }
    }
    return false;
  }

  /** The write is always in bounds: distinct op numbers cannot fill the list before this one. */
  method Push(hitlist: array<nat>, count: nat, u: nat) returns (count': nat)
    requires count <= hitlist.Length && HitList(hitlist[..count], hitlist.Length)
    requires u < hitlist.Length && u !in hitlist[..count]
    modifies hitlist
    ensures count' == count + 1 <= hitlist.Length
    ensures hitlist[..count'] == old(hitlist[..count]) + [u] && HitList(hitlist[..count'], hitlist.Length)
  {
    RoomFor(hitlist[..count], u, hitlist.Length);
    hitlist[count] := u;
    count' := count + 1;
  }

  method Redirect(ops: array<Op>, last: nat, i: nat, slot: Slot, t: nat)
    requires InRange(ops, last) && i < last && Jumps(ops[i]) && t < last
    modifies ops
    ensures InRange(ops, last) && ops[..last] == old(ops[..last])[i := WithTarget(old(ops[i]), slot, t)]
  {
    ops[i] := WithTarget(ops[i], slot, t);
  }

  /** The loops around CHECK_JMP and CHECK_JMP2. */
  method ThreadSlot(ops: array<Op>, last: nat, i: nat, slot: Slot, hitlist: array<nat>, count: nat)
      returns (count': nat)
    requires InRange(ops, last) && i < last && Jumps(ops[i]) && hitlist.Length == last
    requires count <= last && HitList(hitlist[..count], last)
    modifies ops, hitlist
    ensures InRange(ops, last) && count' <= last && HitList(hitlist[..count'], last)
    ensures (ops[..last], hitlist[..count']) == Thread(old(ops[..last]), i, slot, old(hitlist[..count]))
  {
    count' := count;
    ghost var goal := Thread(ops[..last], i, slot, hitlist[..count]);
    while Target(ops[i], slot) < last
      invariant InRange(ops, last) && Jumps(ops[i]) && count <= count' <= last
      invariant HitList(hitlist[..count'], last)
      invariant Thread(ops[..last], i, slot, hitlist[..count']) == goal
      decreases last - count'
    {
      var op := ops[i];
      var target := Target(op, slot);
      var next := HopOf(op, ops[target]);
      if next.Stay? {
        return;
      }
      if next.Past? {
        Redirect(ops, last, i, slot, target + 1);
        return;
      }
      var hit := IsHit(hitlist, count', next.next);
      if hit {
        return;
      }
      count' := Push(hitlist, count', next.next);
      Redirect(ops, last, i, slot, next.next);
    }
  }

  method OptimizeOp(ops: array<Op>, last: nat, i: nat, hitlist: array<nat>)
    requires InRange(ops, last) && i < last && hitlist.Length == last
    modifies ops, hitlist
    ensures InRange(ops, last) && ops[..last] == Optimize(old(ops[..last]), i)
  {
    var op := ops[i];
    ghost var was := ops[..last];
    if (op.Jmp? || op.CondJmp?) && op.target == i + 1 {
      assert i + 1 < last by { assert TargetsIn(ops[i], last); }
      ops[i] := Nop;
      assert ops[..last] == was[i := Nop];
    } else if Jumps(op) {
      assert hitlist[..0] == [];
      var count := ThreadSlot(ops, last, i, Main, hitlist, 0);
      if op.JmpZnz? {
        count := ThreadSlot(ops, last, i, Ext, hitlist, count);
      }
    }
  }

  method OptimizeAll(ops: array<Op>, last: nat)
    requires InRange(ops, last)
    modifies ops
    ensures InRange(ops, last) && ops[..last] == OptimizeFrom(old(ops[..last]), 0)
  {
    ghost var goal := OptimizeFrom(ops[..last], 0);
    var hitlist := new nat[last];
    for i := 0 to last
      invariant InRange(ops, last) && OptimizeFrom(ops[..last], i) == goal
    {
      OptimizeOp(ops, last, i, hitlist);
    }
  }

  method Pass3(a: OpArray)
    requires a.Valid() && WellFormed(a.View())
    modifies a.opcodes
    ensures a.Valid() && a.View() == Threaded(old(a.View())) && WellFormed(a.View())
  {
    ghost var was := a.View();
    assert forall j :: 0 <= j < a.last ==> a.opcodes[j] == was.ops[j];
    OptimizeAll(a.opcodes, a.last);
    assert forall j :: 0 <= j < a.last ==> a.opcodes[..a.last][j] == a.opcodes[j];
  }
}
