/** find_code_blocks: where the blocks of a piece of code start and how they lead to each other. Running the
    graph shows what running the code shows. */
module FindBlocks {
  import opened Simulation
  import opened Machine
  import opened Cfgs
  import opened CfgEdit
  import opened JmpOptimization
  import opened Reach
  import opened Layout

  // ---- where blocks start

  predicate Targets(op: Op, t: int) {
    match op
    case Jmp(x) => t == x
    case CondJmp(_, _, x) => t == x
    case CondJmpEx(_, _, x, _) => t == x
    case JmpZnz(_, z, n) => t == z || t == n
    case _ => false
  }

  /** The op after it starts a block. */
  predicate Ends(op: Op) { op.Jmp? || op.CondJmp? || op.CondJmpEx? || op.JmpZnz? || op.Return? }

  /** START_BLOCK_OP has been called for t by one of the ops before n. */
  ghost predicate StartedBy(ops: seq<Op>, n: nat, t: int) {
    exists i: nat {:trigger ops[i]} :: i < n && i < |ops| && (Targets(ops[i], t) || (Ends(ops[i]) && t == i + 1))
  }

  ghost predicate IsStart(ops: seq<Op>, t: int) { t == 0 || StartedBy(ops, |ops|, t) }

  /** The ways out of a block by its last op, followed by the block at next. */
  predicate WaysFit(op: Op, next: int, blk: Block) {
    && blk.op1To == (if op.Jmp? then op.target else -1)
    && blk.op2To == (if op.CondJmp? || op.CondJmpEx? then op.target else if op.JmpZnz? then op.onZero else -1)
    && blk.extTo == (if op.JmpZnz? then op.onNonZero else -1)
    && blk.followTo == (if op.Jmp? || op.JmpZnz? || op.Return? then -1 else next)
  }

  /** Block t runs up to the next start. The block at the very end gets no ways out. */
  ghost predicate SplitAt(ops: seq<Op>, blk: Block, t: nat) {
    var n := |blk.ops|;
    && n > 0 && t + n <= |ops| && blk.ops == ops[t..t + n] && !blk.protected
    && (forall u {:trigger IsStart(ops, u)} :: t < u < t + n ==> !IsStart(ops, u))
    && if t + n == |ops| then blk.op1To == blk.op2To == blk.extTo == blk.followTo == -1
       else IsStart(ops, t + n) && WaysFit(ops[t + n - 1], t + n, blk)
  }

  ghost predicate Split(ops: seq<Op>, g: Cfg) {
    |g| == |ops| && forall t: nat {:trigger g[t]} :: t < |ops| && IsStart(ops, t) ==> SplitAt(ops, g[t], t)
  }

  /** What the block pass relies on: targets are in range, BRK and CONT have been resolved, and the final op is
      a RETURN, because the last block gets no ways out. */
  ghost predicate Plainly(ops: seq<Op>) {
    && |ops| > 0 && ops[|ops| - 1].Return?
    && (forall i: nat {:trigger ops[i]} :: i < |ops| ==> !ops[i].Brk? && !ops[i].Cont?)
    && (forall i: nat, t: int {:trigger Targets(ops[i], t)} :: i < |ops| && Targets(ops[i], t) ==> 0 <= t < |ops|)
  }

  /** Op i holds the number t as a place to go to, or comes before op t and does not run on to it. */
  ghost predicate Separates(ops: seq<Op>, i: nat, t: int)
    requires i < |ops|
  {
    match ops[i]
    case Jmp(x) => t == x || t == i + 1
    case CondJmp(_, _, x) => t == x || t == i + 1
    case CondJmpEx(_, _, x, _) => t == x || t == i + 1
    case JmpZnz(_, z, n) => t == z || t == n || t == i + 1
    case Return(_) => t == i + 1
    case _ => false
  }

  /** Blocks start at the first op, where a jump leads, and behind an op that ends a block, and nowhere else. */
  lemma StartsExactly(ops: seq<Op>, t: int)
    ensures IsStart(ops, t) <==> t == 0 || exists i: nat {:trigger ops[i]} :: i < |ops| && Separates(ops, i, t)
  {
    if StartedBy(ops, |ops|, t) {
      var i: nat :| i < |ops| && (Targets(ops[i], t) || (Ends(ops[i]) && t == i + 1));
      assert Separates(ops, i, t);
    }
    if i: nat :| i < |ops| && Separates(ops, i, t) {
      assert Targets(ops[i], t) || (Ends(ops[i]) && t == i + 1);
      assert StartedBy(ops, |ops|, t);
    }
  }

  // ---- the graph is well formed

  ghost predicate Splits(ops: seq<Op>, g: Cfg, r: Cfg) {
    Plainly(ops) && Split(ops, g) && Rebuilt(g, [0], r)
  }

  lemma BlockShaped(ops: seq<Op>, g: Cfg, t: nat)
    requires Plainly(ops) && Split(ops, g) && t < |ops| && IsStart(ops, t)
    ensures Shaped(g[t])
  {
    var n := |g[t].ops|;
    assert SplitAt(ops, g[t], t);
    assert g[t].ops[n - 1] == ops[t + n - 1];
    forall i | 0 <= i < n - 1 ensures Plain(g[t].ops[i]) {
      assert g[t].ops[i] == ops[t + i];
      if Ends(ops[t + i]) {
        assert StartedBy(ops, |ops|, t + i + 1);
        assert IsStart(ops, t + i + 1);
      }
    }
    if t + n < |ops| {
      LastTargets(ops, t + n - 1);
    }
  }

  lemma LastTargets(ops: seq<Op>, i: nat)
    requires Plainly(ops) && i < |ops|
    ensures var op := ops[i];
      && (op.Jmp? || op.CondJmp? || op.CondJmpEx? ==> op.target < |ops| && IsStart(ops, op.target))
      && (op.JmpZnz? ==>
            op.onZero < |ops| && op.onNonZero < |ops| && IsStart(ops, op.onZero) && IsStart(ops, op.onNonZero))
  {
    var op := ops[i];
    if op.Jmp? || op.CondJmp? || op.CondJmpEx? {
      assert Targets(op, op.target);
    } else if op.JmpZnz? {
      assert Targets(op, op.onZero) && Targets(op, op.onNonZero);
    }
  }

  /** Blocks lead to blocks. */
  lemma EdgeIsStart(ops: seq<Op>, g: Cfg, t: nat, y: int)
    requires Plainly(ops) && Split(ops, g) && t < |ops| && IsStart(ops, t) && Edge(g[t], y)
    ensures y < |ops| && IsStart(ops, y)
  {
    var n := |g[t].ops|;
    assert SplitAt(ops, g[t], t);
    if t + n < |ops| {
      LastTargets(ops, t + n - 1);
    }
  }

  lemma LiveIsStart(ops: seq<Op>, g: Cfg, r: Cfg, x: nat)
    requires Splits(ops, g, r) && Live(r, x)
    ensures IsStart(ops, x) && SameCode(r[x], g[x])
  {
    assert r[x].access && ReachableFrom(g, [0], x);
    var a :| a in [0] && Reachable(g, a, x);
    var p: seq<nat> :| Path(g, p) && p[0] == a && p[|p| - 1] == x;
    PathIsStart(ops, g, p);
  }

  lemma LiveSplit(ops: seq<Op>, g: Cfg, r: Cfg, x: nat)
    requires Splits(ops, g, r) && Live(r, x)
    ensures IsStart(ops, x) && SplitAt(ops, r[x], x)
  {
    LiveIsStart(ops, g, r, x);
    assert SplitAt(ops, g[x], x);
  }

  lemma {:induction false} PathIsStart(ops: seq<Op>, g: Cfg, p: seq<nat>)
    requires Plainly(ops) && Split(ops, g) && Path(g, p) && p[0] == 0
    ensures p[|p| - 1] < |ops| && IsStart(ops, p[|p| - 1])
    decreases |p|
  {
    if |p| > 1 {
      var q := p[..|p| - 1];
      PathIsStart(ops, g, q);
      var i, j := |p| - 2, |p| - 1;
      assert p[i] == q[|q| - 1] && Edge(g[p[i]], p[j]);
      EdgeIsStart(ops, g, p[i], p[j]);
    }
  }

  lemma LiveLeads(ops: seq<Op>, g: Cfg, r: Cfg, x: nat, y: nat)
    requires Splits(ops, g, r) && Live(r, x) && Edge(r[x], y)
    ensures Live(r, y) && x in r[y].sources
  {
    LiveIsStart(ops, g, r, x);
    EdgeIsStart(ops, g, x, y);
    assert r[x].access && ReachableFrom(g, [0], x);
    var a :| a in [0] && Reachable(g, a, x);
    ReachLast(g, a, x, y);
    assert r[y].access;
  }

  lemma SplitWf(ops: seq<Op>, g: Cfg, r: Cfg)
    requires Splits(ops, g, r)
    ensures Wf(r, 0)
  {
    forall x | Live(r, x) ensures Shaped(r[x]) && (r[x].followTo >= 0 ==> Falls(r, x, r[x].followTo)) {
      LiveIsStart(ops, g, r, x);
      BlockShaped(ops, g, x);
      if r[x].followTo >= 0 {
        SplitFalls(ops, g, r, x);
      }
    }
    ReachSelf(g, 0);
    assert 0 in [0] && ReachableFrom(g, [0], 0) && r[0].access;
    SplitSources(ops, g, r);
  }

  lemma SplitFalls(ops: seq<Op>, g: Cfg, r: Cfg, x: nat)
    requires Splits(ops, g, r) && Live(r, x) && r[x].followTo >= 0
    ensures Falls(r, x, r[x].followTo)
  {
    LiveIsStart(ops, g, r, x);
    assert SplitAt(ops, g[x], x);
    LiveLeads(ops, g, r, x, r[x].followTo);
    forall j | Live(r, j) ensures !(x < j < r[x].followTo) {
      LiveIsStart(ops, g, r, j);
    }
  }

  lemma SplitSources(ops: seq<Op>, g: Cfg, r: Cfg)
    requires Splits(ops, g, r)
    ensures SourcesExact(r)
  {
    forall y | Live(r, y) ensures NoDup(r[y].sources) {
      var z: nat := y;
      assert NoDup(r[z].sources);
    }
    forall x, y | Live(r, x) && Edge(r[x], y) ensures Live(r, y) && x in r[y].sources {
      LiveLeads(ops, g, r, x, y);
    }
    forall x, y | Live(r, x) && Live(r, y) && x in r[y].sources ensures Edge(r[x], y) {
    }
  }

  // ---- the simulation

  /** The code and the graph are at the same op. */
  ghost predicate Abreast(r: Cfg, s: State, t: CState) {
    && s.temps == t.temps && s.trace == t.trace && s.done == t.done
    && (!s.done ==> Live(r, t.b) && t.off < |r[t.b].ops| && s.pc == t.b + t.off)
  }

  ghost function AbreastRel(r: Cfg): (State, CState) -> bool { (s, t) => Abreast(r, s, t) }

  /** Where the code goes from an op that leaves its block. */
  function PcWay(op: Op, br: Branch, pc: int): int {
    if br.ToOp1? && op.Jmp? then op.target
    else if br.ToOp2? && (op.CondJmp? || op.CondJmpEx?) then op.target
    else if br.ToOp2? && op.JmpZnz? then op.onZero
    else if br.ToExt? && op.JmpZnz? then op.onNonZero
    else pc + 1
  }

  lemma CodeSteps(env: Env, c: Code, op: Op, s: State)
    requires c.tryCatch == [] && !op.Brk? && !op.Cont? && !s.done
    ensures var (br, m, t) := Perform(env, op, s.temps, s.trace);
      var u := StepOp(env, c, op, s);
      && u.temps == m && u.trace == t && u.done == br.Stop? && (!u.done ==> u.pc == PcWay(op, br, s.pc))
  {
  }

  predicate BranchFits(op: Op, br: Branch) {
    (br.ToOp1? ==> op.Jmp?) && (br.ToOp2? ==> op.CondJmp? || op.CondJmpEx? || op.JmpZnz?) && (br.ToExt? ==> op.JmpZnz?)
  }

  /** The way out of a block leads where the code goes. */
  lemma WayGoes(ops: seq<Op>, blk: Block, b: nat, br: Branch)
    requires Plainly(ops) && SplitAt(ops, blk, b) && Shaped(blk) && !br.Stop?
    requires Edge(blk, Way(blk, br)) && BranchFits(Last(blk), br)
    ensures Way(blk, br) == PcWay(Last(blk), br, b + |blk.ops| - 1)
  {
    var n := |blk.ops|;
    assert Last(blk) == ops[b + n - 1];
  }

  lemma BranchOf(env: Env, op: Op, m: Store, trace: seq<Event>)
    ensures BranchFits(op, Perform(env, op, m, trace).0)
  {
  }

  /** One step of the code and of the block it is in. */
  lemma BlockAbreast(env: Env, ops: seq<Op>, blk: Block, c: Code, s: State, t: CState)
    requires Plainly(ops) && t.b >= 0 && SplitAt(ops, blk, t.b) && Shaped(blk) && c.ops == ops && c.tryCatch == []
    requires s.temps == t.temps && s.trace == t.trace && !s.done && !t.done && t.off < |blk.ops| && s.pc == t.b + t.off
    ensures var v, u := Step(env, c, s), BlockStep(env, blk, t);
      v.temps == u.temps && v.trace == u.trace && v.done == u.done && (!u.done ==> v.pc == u.b + u.off)
  {
    var op, u := ops[s.pc], BlockStep(env, blk, t);
    assert op == blk.ops[t.off];
    CodeSteps(env, c, op, s);
    BranchOf(env, op, t.temps, t.trace);
    WayIsEdge(env, blk, t);
    if t.off == |blk.ops| - 1 && !u.done {
      WayGoes(ops, blk, t.b, Perform(env, op, t.temps, t.trace).0);
    }
  }

  lemma AbreastStep(env: Env, ops: seq<Op>, g: Cfg, r: Cfg, c: Code, s: State, t: CState)
    requires Splits(ops, g, r) && Wf(r, 0) && c.ops == ops && c.tryCatch == [] && Abreast(r, s, t)
    ensures Abreast(r, Step(env, c, s), CStep(env, r, t))
  {
    if !s.done {
      LiveSplit(ops, g, r, t.b);
      assert Shaped(r[t.b]);
      BlockAbreast(env, ops, r[t.b], c, s, t);
      assert Placed(r, t);
      StepPlaced(env, r, 0, t);
    }
  }

  lemma AbreastPair(env: Env, ops: seq<Op>, g: Cfg, r: Cfg, c: Code, s: State, t: CState)
    requires Splits(ops, g, r) && Wf(r, 0) && c.ops == ops && c.tryCatch == [] && AbreastRel(r)(s, t)
    ensures PairReaches(Stepper(env, c), s, CStepper(env, r), t, AbreastRel(r))
  {
    AbreastStep(env, ops, g, r, c, s, t);
    PairOf(env, c, r, s, t, 0, 0, AbreastRel(r));
  }

  lemma AbreastSees(r: Cfg)
    ensures forall s: State, t: CState {:trigger AbreastRel(r)(s, t)} :: AbreastRel(r)(s, t) ==>
      Observe()(s) == CObserve()(t)
  {
  }

  /** Splitting code into blocks and dropping those that cannot be reached gives a well-formed graph and changes
      no run. */
  lemma SplitPreserves(env: Env, c: Code, g: Cfg, r: Cfg)
    requires Splits(c.ops, g, r) && c.tryCatch == []
    ensures Wf(r, 0) && CRuns(env, r, 0) == Runs(env, c)
  {
    var ops := c.ops;
    SplitWf(ops, g, r);
    MachineLawful(env, c);
    CfgLawful(env, r);
    AbreastSees(r);
    forall s: State, t: CState | AbreastRel(r)(s, t)
      ensures PairReaches(Stepper(env, c), s, CStepper(env, r), t, AbreastRel(r))
    {
      AbreastPair(env, ops, g, r, c, s, t);
    }
    assert Live(r, 0) && Shaped(r[0]);
    assert Abreast(r, Init(), Enter(0));
    assert AbreastRel(r)(Init(), Enter(0));
    PairStepSound(Stepper(env, c), Observe(), CStepper(env, r), CObserve(), AbreastRel(r), Init(), Enter(0));
  }

  // ---- the blocks do not overlap

  /** The next accessible block starts where block x ends, or later. */
  lemma NextStarts(ops: seq<Op>, g: Cfg, r: Cfg, x: nat, j: int)
    requires Splits(ops, g, r) && Live(r, x) && Live(r, j) && j > x
    ensures j >= x + |r[x].ops|
  {
    LiveSplit(ops, g, r, x);
    LiveSplit(ops, g, r, j);
  }

  lemma BlockEnds(ops: seq<Op>, g: Cfg, r: Cfg, x: nat)
    requires Splits(ops, g, r) && Live(r, x)
    ensures x + |r[x].ops| <= |ops|
  {
    LiveSplit(ops, g, r, x);
  }

  /** The accessible blocks before n fit before e, and those from n on start there or later. */
  lemma {:induction false} SizeFits(ops: seq<Op>, g: Cfg, r: Cfg, n: nat) returns (e: nat)
    requires Splits(ops, g, r) && n <= |r|
    ensures Size(r, n) <= e <= |ops| && forall j {:trigger Live(r, j)} :: Live(r, j) && j >= n ==> j >= e
    decreases n
  {
    if n == 0 {
      e := 0;
    } else {
      e := SizeFits(ops, g, r, n - 1);
      if Live(r, n - 1) {
        BlockEnds(ops, g, r, n - 1);
        e := n - 1 + |r[n - 1].ops|;
        forall j | Live(r, j) && j >= n ensures j >= e {
          NextStarts(ops, g, r, n - 1, j);
        }
      }
    }
  }

  /** Splitting code into blocks, dropping those that cannot be reached and gluing the rest together again,
      without jumps to the next block, gives code no longer than before with the same runs. */
  lemma GluePreserves(env: Env, c: Code, g: Cfg, r: Cfg, base: seq<nat>, out: seq<Op>, temps: nat)
    requires Splits(c.ops, g, r) && c.tryCatch == [] && Laid(r, base, out)
    ensures Runs(env, Glued(out, temps)) == Runs(env, c) && |out| <= |c.ops|
  {
    SplitPreserves(env, c, g, r);
    assert Live(r, 0) && NextLive(r, -1) == 0;
    LaidPreserves(env, r, 0, base, out, temps);
    NoLonger(r, base, |r|);
    var e := SizeFits(c.ops, g, r, |r|);
  }

  // ---- how the blocks are found

  ghost predicate Marked(ops: seq<Op>, started: seq<bool>, n: nat) {
    |started| == |ops| + 1 && forall t: nat {:trigger started[t]} :: t <= |ops| ==>
      (started[t] <==> t == 0 || StartedBy(ops, n, t))
  }

  ghost predicate TargetsIn(ops: seq<Op>) {
    forall i: nat, t: int {:trigger Targets(ops[i], t)} :: i < |ops| && Targets(ops[i], t) ==> 0 <= t < |ops|
  }

  /** START_BLOCK_OP */
  function Start(started: seq<bool>, t: int): seq<bool> {
    if 0 <= t < |started| then started[t := true] else started
  }

  /** The calls of START_BLOCK_OP for the op at i. */
  function MarkOp(started: seq<bool>, op: Op, i: nat): seq<bool> {
    var s := match op
      case Jmp(x) => Start(started, x)
      case CondJmp(_, _, x) => Start(started, x)
      case CondJmpEx(_, _, x, _) => Start(started, x)
      case JmpZnz(_, z, n) => Start(Start(started, n), z)
      case _ => started;
    if Ends(op) then Start(s, i + 1) else s
  }

  lemma MarkOneMore(ops: seq<Op>, started: seq<bool>, i: nat)
    requires i < |ops| && Marked(ops, started, i) && TargetsIn(ops)
    ensures Marked(ops, MarkOp(started, ops[i], i), i + 1)
  {
    var r := MarkOp(started, ops[i], i);
    forall t: nat | t <= |ops| ensures r[t] <==> t == 0 || StartedBy(ops, i + 1, t) {
      var op := ops[i];
      assert r[t] <==> started[t] || Targets(op, t) || (Ends(op) && t == i + 1);
      if StartedBy(ops, i, t) {
        var k: nat :| k < i && k < |ops| && (Targets(ops[k], t) || (Ends(ops[k]) && t == k + 1));
        assert k < i + 1;
      }
      if StartedBy(ops, i + 1, t) {
        var k: nat :| k < i + 1 && k < |ops| && (Targets(ops[k], t) || (Ends(ops[k]) && t == k + 1));
        assert k == i || StartedBy(ops, i, t);
      }
    }
  }

  /** The block that starts at cur and ends before next. */
  function Cut(ops: seq<Op>, cur: nat, next: nat): Block
    requires cur < next <= |ops|
  {
    var op := ops[next - 1];
    if next == |ops| then Block(true, ops[cur..next], -1, -1, -1, -1, [], false)
    else Block(true, ops[cur..next],
               if op.Jmp? then op.target else -1,
               if op.CondJmp? || op.CondJmpEx? then op.target else if op.JmpZnz? then op.onZero else -1,
               if op.JmpZnz? then op.onNonZero else -1,
               if op.Jmp? || op.JmpZnz? || op.Return? then -1 else next, [], false)
  }

  const NO_BLOCK: Block := Block(false, [], -1, -1, -1, -1, [], false)

  /** Blocks that start before cur are done. */
  ghost predicate CutTo(ops: seq<Op>, g: Cfg, cur: nat) {
    |g| == |ops| && forall t: nat {:trigger g[t]} :: t < cur && t < |ops| && IsStart(ops, t) ==> SplitAt(ops, g[t], t)
  }

  lemma CutOneMore(ops: seq<Op>, g: Cfg, cur: nat, next: nat)
    requires CutTo(ops, g, cur) && cur < next <= |ops| && IsStart(ops, cur) && (next == |ops| || IsStart(ops, next))
    requires forall u {:trigger IsStart(ops, u)} :: cur < u < next ==> !IsStart(ops, u)
    ensures CutTo(ops, g[cur := Cut(ops, cur, next)], next)
  {
    var blk := Cut(ops, cur, next);
    assert |blk.ops| == next - cur && SplitAt(ops, blk, cur);
    var r := g[cur := blk];
    forall t: nat | t < next && t < |ops| && IsStart(ops, t) ensures SplitAt(ops, r[t], t) {
      assert t < cur ==> SplitAt(ops, g[t], t);
    }
  }
}
