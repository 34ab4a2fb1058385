/** Code for which everything that the block pass relies on holds in every round. Two things are asked of each branch on
    a variable: as long as nothing is done but NOPs, JMPs and tests of that variable, its two ways do not come together,
    and neither of them comes back to the branch. Code of this kind may have its jumps threaded, skipped and fused at
    will: nested loops and branches, with their tests at the top or at the bottom, are of it. */
module SettledCode {
  import opened Machine
  import opened Cfgs
  import opened CfgEdit
  import opened Redirects
  import opened BlockDeletion
  import opened StripNops
  import opened JmpOptimization
  import opened Pruning
  import opened FindBlocks
  import opened BlockPass

  // ---- the condition

  /** (v, set, i) -> the ops that control meets from op i on, if variable v is set (or not), before it does anything but
      pass NOPs and JMPs and test v. There may be others among them. */
  type Meets = (Operand, bool, int) -> set<int>

  ghost predicate Closed(met: Meets) {
    && (forall v, z, i {:trigger met(v, z, i)} :: i in met(v, z, i))
    && (forall v, z, i, j {:trigger j in met(v, z, i)} :: j in met(v, z, i) ==> met(v, z, j) <= met(v, z, i))
  }

  predicate Branches(op: Op) { op.CondJmp? || op.JmpZnz? }

  function OpWay(op: Op, i: int, isSet: bool): int
    requires Branches(op)
  {
    match op
    case CondJmp(nz, _, t) => if isSet == nz then t else i + 1
    case JmpZnz(_, zero, nonZero) => if isSet then nonZero else zero
    case _ => -1
  }

  /** Not a constant, nor a variable whose number does not fit a byte. */
  predicate Testable(v: Operand) { !v.Const? && (v.Tmp? || v.Cv? ==> v.n < 256) }

  /** From x control is sure to come to y. */
  ghost predicate Goes(met: Meets, x: int, y: int) {
    forall v: Operand, z: bool {:trigger met(v, z, x)} :: y in met(v, z, x)
  }

  ghost predicate Apart(met: Meets, v: Operand, ifSet: int, ifNot: int) {
    Testable(v) && met(v, true, ifSet) !! met(v, false, ifNot)
  }

  ghost predicate SettledOp(met: Meets, op: Op, i: int) {
    match op
    case Nop => Goes(met, i, i + 1)
    case Jmp(t) => Goes(met, i, t)
    case CondJmp(_, _, _) => SettledBranch(met, op, i)
    case JmpZnz(_, _, _) => SettledBranch(met, op, i)
    case _ => true
  }

  ghost predicate SettledBranch(met: Meets, op: Op, i: int)
    requires Branches(op)
  {
    && Apart(met, op.cond, OpWay(op, i, true), OpWay(op, i, false))
    && forall z: bool {:trigger OpWay(op, i, z)} ::
         OpWay(op, i, z) in met(op.cond, z, i) && i !in met(op.cond, z, OpWay(op, i, z))
  }

  /** Neither stepped over nor copied. */
  predicate Solid(op: Op) { !op.Nop? && !op.Jmp? && !op.Return? && !Branches(op) }

  predicate Opens(op: Op) { !op.Nop? && !op.Jmp? }

  /** The entry may be jumped to if it does something, or if it is a test that is only come back to after something has
      been done. */
  ghost predicate SettledEntry(ops: seq<Op>, met: Meets)
    requires |ops| > 0
  {
    && Opens(ops[0])
    && ( || (forall i: nat {:trigger ops[i]} :: i < |ops| ==> !Targets(ops[i], 0))
         || Solid(ops[0])
         || (ops[0].CondJmp? && |ops| > 1 && Opens(ops[1])
              && forall i: nat, z: bool {:trigger OpWay(ops[i], i, z)} :: i < |ops| && Branches(ops[i]) ==>
                   0 !in met(ops[i].cond, z, OpWay(ops[i], i, z))))
  }

  ghost predicate Settled(ops: seq<Op>, met: Meets) {
    && Closed(met) && |ops| > 0 && SettledEntry(ops, met)
    && forall i: nat {:trigger ops[i]} :: i < |ops| ==> SettledOp(met, ops[i], i)
  }

  // ---- the graph of such code

  /** Before its last op the block has only NOPs. */
  predicate Bare(blk: Block) { forall i {:trigger blk.ops[i]} :: 0 <= i < |blk.ops| - 1 ==> blk.ops[i].Nop? }

  function BlockWay(blk: Block, isSet: bool): int
    requires Branches(Last(blk))
  {
    match Last(blk)
    case CondJmp(nz, _, _) => if isSet == nz then blk.op2To else blk.followTo
    case JmpZnz(_, _, _) => if isSet then blk.extTo else blk.op2To
    case _ => -1
  }

  ghost predicate SettledBlock(met: Meets, blk: Block, x: int) {
    && |blk.ops| > 0
    && (NopOnly(blk) ==> Goes(met, x, blk.followTo))
    && (Bare(blk) && Last(blk).Jmp? ==> Goes(met, x, blk.op1To))
    && (Branches(Last(blk)) ==> Apart(met, Last(blk).cond, BlockWay(blk, true), BlockWay(blk, false)))
    && (Branches(Last(blk)) && Bare(blk) ==> forall z: bool {:trigger BlockWay(blk, z)} ::
          BlockWay(blk, z) in met(Last(blk).cond, z, x) && x !in met(Last(blk).cond, z, BlockWay(blk, z)))
  }

  /** The block does not lead back to the entry without doing something. */
  ghost predicate Leaves0(met: Meets, blk: Block) {
    Branches(Last(blk)) ==> forall z: bool {:trigger BlockWay(blk, z)} ::
      0 !in met(Last(blk).cond, z, BlockWay(blk, z))
  }

  predicate Opening(blk: Block) { |blk.ops| > 0 && Opens(blk.ops[0]) }

  ghost predicate EntryFree(cfg: Cfg) { forall x {:trigger Live(cfg, x)} :: Live(cfg, x) ==> !Edge(cfg[x], 0) }

  ghost predicate AllLeave0(met: Meets, cfg: Cfg) {
    forall x {:trigger Live(cfg, x)} :: Live(cfg, x) ==> Leaves0(met, cfg[x])
  }

  ghost predicate EntrySettled(met: Meets, cfg: Cfg) {
    && Live(cfg, 0) && Opening(cfg[0])
    && (EntryFree(cfg) || Solid(cfg[0].ops[0])
        || (cfg[0].ops[0].CondJmp? && Live(cfg, cfg[0].followTo) && Opening(cfg[cfg[0].followTo])
            && AllLeave0(met, cfg)))
  }

  ghost predicate BlocksSettled(met: Meets, cfg: Cfg) {
    forall x {:trigger Live(cfg, x)} :: Live(cfg, x) ==> SettledBlock(met, cfg[x], x)
  }

  ghost predicate Unprotected(cfg: Cfg) {
    forall x {:trigger Live(cfg, x)} :: Live(cfg, x) ==> !cfg[x].protected
  }

  ghost predicate SettledGraph(met: Meets, cfg: Cfg) {
    Closed(met) && Wf(cfg, 0) && BlocksSettled(met, cfg) && Unprotected(cfg) && EntrySettled(met, cfg)
  }

  // ---- splitting gives such a graph

  lemma {:induction false} NopsGo(ops: seq<Op>, met: Meets, x: nat, k: nat)
    requires Settled(ops, met) && x <= k <= |ops| && forall i {:trigger ops[i]} :: x <= i < k ==> ops[i].Nop?
    ensures Goes(met, x, k)
    decreases k
  {
    if x < k {
      NopsGo(ops, met, x, k - 1);
      assert SettledOp(met, ops[k - 1], k - 1);
      forall v: Operand, z: bool ensures k in met(v, z, x) {
        assert k - 1 in met(v, z, x) && k in met(v, z, k - 1);
      }
    }
  }

  lemma GoesOn(met: Meets, x: int, y: int, e: int)
    requires Closed(met) && Goes(met, x, y) && Goes(met, y, e)
    ensures Goes(met, x, e)
  {
    forall v: Operand, z: bool ensures e in met(v, z, x) {
      assert y in met(v, z, x) && e in met(v, z, y);
    }
  }

  lemma SplitBlockSettled(ops: seq<Op>, met: Meets, blk: Block, x: nat)
    requires Settled(ops, met) && Plainly(ops) && SplitAt(ops, blk, x)
    ensures SettledBlock(met, blk, x)
  {
    var n := |blk.ops|;
    var i := x + n - 1;
    assert Last(blk) == ops[i] && SettledOp(met, ops[i], i);
    if NopOnly(blk) {
      assert forall k {:trigger ops[k]} :: x <= k < x + n ==> ops[k] == blk.ops[k - x];
      NopsGo(ops, met, x, x + n);
    } else if Bare(blk) {
      assert forall k {:trigger ops[k]} :: x <= k < i ==> ops[k] == blk.ops[k - x];
      NopsGo(ops, met, x, i);
      if ops[i].Jmp? && x + n < |ops| {
        GoesOn(met, x, i, ops[i].target);
      } else if Branches(ops[i]) {
        BareBranchSplit(ops, met, blk, x, i);
      }
    }
  }

  lemma BareBranchSplit(ops: seq<Op>, met: Meets, blk: Block, x: nat, i: nat)
    requires Settled(ops, met) && Plainly(ops) && SplitAt(ops, blk, x) && i == x + |blk.ops| - 1 && Goes(met, x, i)
    requires Branches(ops[i]) && Last(blk) == ops[i]
    ensures forall z: bool {:trigger BlockWay(blk, z)} ::
      BlockWay(blk, z) in met(Last(blk).cond, z, x) && x !in met(Last(blk).cond, z, BlockWay(blk, z))
  {
    var v := ops[i].cond;
    assert SettledOp(met, ops[i], i);
    forall z: bool
      ensures BlockWay(blk, z) in met(v, z, x) && x !in met(v, z, BlockWay(blk, z))
    {
      var w := OpWay(ops[i], i, z);
      assert BlockWay(blk, z) == w && i in met(v, z, x) && w in met(v, z, i);
    }
  }

  lemma SplitEntryFree(ops: seq<Op>, g: Cfg, r: Cfg)
    requires Splits(ops, g, r) && forall i: nat {:trigger ops[i]} :: i < |ops| ==> !Targets(ops[i], 0)
    ensures EntryFree(r)
  {
    forall x | Live(r, x) ensures !Edge(r[x], 0) {
      LiveSplit(ops, g, r, x);
      assert !Targets(ops[x + |r[x].ops| - 1], 0);
    }
  }

  lemma SplitEntry(ops: seq<Op>, met: Meets, g: Cfg, r: Cfg)
    requires Settled(ops, met) && Splits(ops, g, r) && Wf(r, 0)
    ensures EntrySettled(met, r)
  {
    LiveSplit(ops, g, r, 0);
    assert r[0].ops[0] == ops[0];
    if forall i: nat {:trigger ops[i]} :: i < |ops| ==> !Targets(ops[i], 0) {
      SplitEntryFree(ops, g, r);
    } else if ops[0].CondJmp? {
      SplitTestEntry(ops, met, g, r);
    }
  }

  lemma SplitTestEntry(ops: seq<Op>, met: Meets, g: Cfg, r: Cfg)
    requires Settled(ops, met) && Splits(ops, g, r) && Wf(r, 0) && ops[0].CondJmp? && |ops| > 1 && Opens(ops[1])
    requires forall i: nat, z: bool {:trigger OpWay(ops[i], i, z)} :: i < |ops| && Branches(ops[i]) ==>
      0 !in met(ops[i].cond, z, OpWay(ops[i], i, z))
    ensures Live(r, r[0].followTo) && Opening(r[r[0].followTo]) && AllLeave0(met, r)
  {
    AfterTest(ops, g, r);
    forall x | Live(r, x) ensures Leaves0(met, r[x]) {
      LiveSplit(ops, g, r, x);
      SplitLeaves0(ops, met, r[x], x);
    }
  }

  lemma AfterTest(ops: seq<Op>, g: Cfg, r: Cfg)
    requires Splits(ops, g, r) && Wf(r, 0) && ops[0].CondJmp? && |ops| > 1
    ensures r[0].followTo == 1 && Live(r, 1) && |r[1].ops| > 0 && r[1].ops[0] == ops[1]
  {
    LiveSplit(ops, g, r, 0);
    assert Shaped(r[0]);
    assert StartedBy(ops, |ops|, 1);
    assert IsStart(ops, 1);
    assert |r[0].ops| == 1 && r[0].followTo == 1;
    assert Falls(r, 0, 1);
    LiveSplit(ops, g, r, 1);
  }

  lemma SplitLeaves0(ops: seq<Op>, met: Meets, blk: Block, x: nat)
    requires Plainly(ops) && SplitAt(ops, blk, x)
    requires forall i: nat, z: bool {:trigger OpWay(ops[i], i, z)} :: i < |ops| && Branches(ops[i]) ==>
      0 !in met(ops[i].cond, z, OpWay(ops[i], i, z))
    ensures Leaves0(met, blk)
  {
    var i := x + |blk.ops| - 1;
    assert Last(blk) == ops[i];
    if Branches(ops[i]) {
      forall z: bool ensures 0 !in met(ops[i].cond, z, BlockWay(blk, z)) {
        assert BlockWay(blk, z) == OpWay(ops[i], i, z);
      }
    }
  }

  lemma SplitSettled(ops: seq<Op>, met: Meets, g: Cfg, r: Cfg)
    requires Settled(ops, met) && Splits(ops, g, r)
    ensures SettledGraph(met, r)
  {
    SplitWf(ops, g, r);
    SplitEntry(ops, met, g, r);
    forall x | Live(r, x) ensures SettledBlock(met, r[x], x) && !r[x].protected {
      LiveSplit(ops, g, r, x);
      SplitBlockSettled(ops, met, r[x], x);
    }
  }

  // ---- every edit keeps it, if the new code of the block is as good as the old

  lemma MergedShape(f: Block, y: Block, blk: Block)
    requires |f.ops| > 0 && |y.ops| > 0 && blk.ops == f.ops + y.ops
    ensures Last(blk) == Last(y) && blk.ops[0] == f.ops[0] && |blk.ops| > 0
    ensures (Bare(blk) ==> NopOnly(f) && Bare(y)) && (NopOnly(blk) ==> NopOnly(f) && NopOnly(y))
  {
    var n := |f.ops|;
    assert forall i {:trigger f.ops[i]} :: 0 <= i < n ==> blk.ops[i] == f.ops[i];
    assert forall i {:trigger y.ops[i]} :: 0 <= i < |y.ops| ==> blk.ops[n + i] == y.ops[i];
  }

  lemma SameWays(blk: Block, y: Block)
    requires Last(blk) == Last(y) && Branches(Last(y))
    requires blk.op2To == y.op2To && blk.extTo == y.extTo && blk.followTo == y.followTo
    ensures forall z: bool {:trigger BlockWay(blk, z)} {:trigger BlockWay(y, z)} :: BlockWay(blk, z) == BlockWay(y, z)
  {
  }

  /** A block and the one that follows it, as one block. */
  lemma MergedSettled(met: Meets, f: Block, y: Block, blk: Block, x: int, at: int)
    requires Closed(met) && SettledBlock(met, f, x) && SettledBlock(met, y, at) && OnlyFallsTo(f, at)
    requires SameCode(blk, y.(ops := f.ops + y.ops))
    ensures SettledBlock(met, blk, x) && (Opening(f) ==> Opening(blk)) && blk.ops[0] == f.ops[0]
    ensures Leaves0(met, y) ==> Leaves0(met, blk)
  {
    MergedShape(f, y, blk);
    if Branches(Last(y)) {
      SameWays(blk, y);
      if Bare(blk) {
        BareBranchMoved(met, y, blk, x, at);
      }
    } else if NopOnly(blk) {
      GoesOn(met, x, at, y.followTo);
    } else if Bare(blk) && Last(y).Jmp? {
      GoesOn(met, x, at, y.op1To);
    }
  }

  /** What comes to a bare test without doing anything is as good as the test. */
  lemma BareBranchMoved(met: Meets, y: Block, blk: Block, x: int, at: int)
    requires Closed(met) && SettledBlock(met, y, at) && Bare(y) && Branches(Last(y)) && Goes(met, x, at)
    requires Branches(Last(blk)) && Last(blk).cond == Last(y).cond
    requires forall z: bool {:trigger BlockWay(blk, z)} :: BlockWay(blk, z) == BlockWay(y, z)
    ensures forall z: bool {:trigger BlockWay(blk, z)} ::
      BlockWay(blk, z) in met(Last(blk).cond, z, x) && x !in met(Last(blk).cond, z, BlockWay(blk, z))
  {
    var v := Last(y).cond;
    forall z: bool ensures BlockWay(blk, z) in met(v, z, x) && x !in met(v, z, BlockWay(blk, z)) {
      assert BlockWay(blk, z) == BlockWay(y, z);
      assert at in met(v, z, x) && BlockWay(y, z) in met(v, z, at);
    }
  }

  /** The new code begins with what the old one began with, where that matters. */
  ghost predicate Renews(cfg: Cfg, b: nat, blk: Block)
    requires b < |cfg|
  {
    && (Opening(cfg[b]) ==> Opening(blk))
    && (b == 0 && Opening(cfg[b]) && !EntryFree(cfg) ==>
          blk.ops[0] == cfg[b].ops[0] && (blk.ops[0].CondJmp? ==> blk.followTo == cfg[b].followTo))
  }

  ghost predicate Fresh(met: Meets, cfg: Cfg, b: nat, blk: Block)
    requires b < |cfg|
  {
    SettledBlock(met, blk, b) && Renews(cfg, b, blk) && (AllLeave0(met, cfg) ==> Leaves0(met, blk))
  }

  lemma EditBlock(met: Meets, cfg: Cfg, b: nat, y: nat, blk: Block, fate: Fate, r: Cfg, x: int)
    requires SettledGraph(met, cfg) && Edit(cfg, b, y, blk, fate, r) && Fresh(met, cfg, b, blk) && Live(r, x)
    ensures Live(cfg, x) && SettledBlock(met, r[x], x) && (Opening(cfg[x]) ==> Opening(r[x]))
    ensures AllLeave0(met, cfg) ==> Leaves0(met, r[x])
    ensures x != b && |cfg[x].ops| > 0 ==> r[x].ops[0] == cfg[x].ops[0]
  {
    var code := Code2(cfg, b, y, blk, fate, x);
    assert Live(cfg, x) && SettledBlock(met, cfg[x], x) && SameCode(r[x], code);
    if x != b && fate.Merged? && x == fate.f {
      assert Edge(cfg[x], y) && Live(cfg, y) && SettledBlock(met, cfg[y], y) && Shaped(cfg[x]);
      MergedSettled(met, cfg[x], cfg[y], r[x], x, y);
    } else {
      SameCodeSettled(met, code, r[x], x);
    }
  }

  lemma SameCodeSettled(met: Meets, blk: Block, r: Block, x: int)
    requires SameCode(r, blk) && SettledBlock(met, blk, x)
    ensures SettledBlock(met, r, x) && (Leaves0(met, blk) ==> Leaves0(met, r))
  {
    if Branches(Last(blk)) {
      assert forall z: bool {:trigger BlockWay(r, z)} {:trigger BlockWay(blk, z)} :: BlockWay(r, z) == BlockWay(blk, z);
    }
  }

  lemma EditEntryFree(cfg: Cfg, b: nat, y: nat, blk: Block, fate: Fate, r: Cfg)
    requires Wf(cfg, 0) && Edit(cfg, b, y, blk, fate, r) && EntryFree(cfg)
    ensures EntryFree(r)
  {
    forall x | Live(r, x) ensures !Edge(r[x], 0) {
      assert Live(cfg, x) && SameCode(r[x], Code2(cfg, b, y, blk, fate, x));
      if x == b {
        assert Edge(blk, 0) ==> Targeted(cfg, 0);
      } else if fate.Merged? && x == fate.f {
        assert Edge(cfg[x], y) && Live(cfg, y);
      }
    }
  }

  lemma EditEntry(met: Meets, cfg: Cfg, b: nat, y: nat, blk: Block, fate: Fate, r: Cfg)
    requires SettledGraph(met, cfg) && Edit(cfg, b, y, blk, fate, r) && Fresh(met, cfg, b, blk)
    requires SparesRoot(0, y, fate) && Wf(r, 0)
    ensures EntrySettled(met, r)
  {
    EditBlock(met, cfg, b, y, blk, fate, r, 0);
    if EntryFree(cfg) {
      EditEntryFree(cfg, b, y, blk, fate, r);
    } else {
      assert r[0].ops[0] == cfg[0].ops[0] by {
        assert SameCode(r[0], Code2(cfg, b, y, blk, fate, 0));
      }
      if cfg[0].ops[0].CondJmp? {
        EditTestEntry(met, cfg, b, y, blk, fate, r);
      }
    }
  }

  lemma EditTestEntry(met: Meets, cfg: Cfg, b: nat, y: nat, blk: Block, fate: Fate, r: Cfg)
    requires SettledGraph(met, cfg) && Edit(cfg, b, y, blk, fate, r) && Fresh(met, cfg, b, blk)
    requires SparesRoot(0, y, fate) && Wf(r, 0) && !EntryFree(cfg) && cfg[0].ops[0].CondJmp?
    ensures Live(r, r[0].followTo) && Opening(r[r[0].followTo]) && AllLeave0(met, r)
  {
    assert Live(r, 0) && SameCode(r[0], Code2(cfg, b, y, blk, fate, 0));
    assert Shaped(cfg[0]) && |cfg[0].ops| == 1;
    assert r[0].followTo == cfg[0].followTo;
    assert Falls(r, 0, r[0].followTo);
    EditBlock(met, cfg, b, y, blk, fate, r, r[0].followTo);
    forall x | Live(r, x) ensures Leaves0(met, r[x]) {
      EditBlock(met, cfg, b, y, blk, fate, r, x);
    }
  }

  lemma EditSettled(met: Meets, cfg: Cfg, b: nat, y: nat, blk: Block, fate: Fate, r: Cfg)
    requires SettledGraph(met, cfg) && Edit(cfg, b, y, blk, fate, r) && Fresh(met, cfg, b, blk)
    requires SparesRoot(0, y, fate) && Wf(r, 0) && Unprotected(r)
    ensures SettledGraph(met, r)
  {
    forall x | Live(r, x) ensures SettledBlock(met, r[x], x) {
      EditBlock(met, cfg, b, y, blk, fate, r, x);
    }
    EditEntry(met, cfg, b, y, blk, fate, r);
  }

  // ---- what is protected stays the same

  ghost predicate SameMarks(a: Cfg, c: Cfg) {
    |a| == |c| && forall z: nat {:trigger a[z]} {:trigger c[z]} :: z < |a| ==> c[z].protected == a[z].protected
  }

  lemma AddSourcesMarks(cfg: Cfg, b: nat, blk: Block)
    ensures SameMarks(cfg, AddSources(cfg, b, blk))
  {
  }

  lemma ReplaceInMarks(cfg: Cfg, at: int, gone: nat, kept: nat)
    ensures SameMarks(cfg, ReplaceIn(cfg, at, gone, kept))
  {
  }

  lemma MergeMarks(cfg: Cfg, f: nat, y: nat)
    requires f < |cfg| && y < |cfg| && f != y
    ensures SameMarks(cfg, Merge(cfg, f, y))
  {
    var to := cfg[y];
    var joined := cfg[f].(ops := cfg[f].ops + to.ops, followTo := to.followTo, op1To := to.op1To,
                          op2To := to.op2To, extTo := to.extTo);
    var c0 := cfg[y := to.(ops := [], access := false, sources := [])][f := joined];
    var c1 := ReplaceIn(c0, to.op1To, y, f);
    var c2 := ReplaceIn(c1, to.op2To, y, f);
    var c3 := ReplaceIn(c2, to.extTo, y, f);
    ReplaceInMarks(c0, to.op1To, y, f);
    ReplaceInMarks(c1, to.op2To, y, f);
    ReplaceInMarks(c2, to.extTo, y, f);
    ReplaceInMarks(c3, to.followTo, y, f);
    assert SameMarks(cfg, c0) && SameMarks(cfg, c1) && SameMarks(cfg, c2) && SameMarks(cfg, c3);
  }

  lemma RedirectMarks(cfg: Cfg, b: nat, y: nat, blk: Block, add: Block)
    requires b < |cfg| && y < |cfg| && b in cfg[y].sources && (y == b ==> FateOf(cfg, b, y) == Kept)
    ensures SameMarks(cfg, Redirect(cfg, b, y, blk, add))
  {
    DelSourceCases(cfg, b, y);
    var d := DelSource(cfg, b, y);
    match FateOf(cfg, b, y) {
      case Merged(f) => MergeMarks(Unlinked(cfg, b, y), f, y);
      case _ =>
    }
    assert SameMarks(cfg, d);
    AddSourcesMarks(SetCode(d, b, blk), b, add);
    assert SameMarks(cfg, SetCode(d, b, blk));
  }

  lemma {:induction false} MoveSourcesMarks(cfg: Cfg, l: seq<nat>, b: nat, to: int)
    ensures SameMarks(cfg, MoveSources(cfg, l, b, to))
  {
    if l != [] {
      MoveSourcesMarks(cfg, l[..|l| - 1], b, to);
    }
  }

  lemma LeadSettled(met: Meets, cfg: Cfg, b: nat, w: Rewriting)
    requires SettledGraph(met, cfg) && w.Lead? && Fits(cfg, 0, b, w.y, w.blk, w.add) && Fresh(met, cfg, b, w.blk)
    ensures w.y < |cfg| && SettledGraph(met, Redirect(cfg, b, w.y, w.blk, w.add))
  {
    var r := Redirect(cfg, b, w.y, w.blk, w.add);
    RedirectEdit(cfg, 0, b, w.y, w.blk, w.add);
    EditWf(cfg, 0, b, w.y, w.blk, FateOf(cfg, b, w.y), r);
    assert b in cfg[w.y].sources;
    RedirectMarks(cfg, b, w.y, w.blk, w.add);
    forall x | Live(r, x) ensures !r[x].protected {
      var z: nat := x;
      assert Live(cfg, x) && r[z].protected == cfg[z].protected;
    }
    EditSettled(met, cfg, b, w.y, w.blk, FateOf(cfg, b, w.y), r);
  }

  lemma RecodeSettled(met: Meets, cfg: Cfg, b: nat, y: nat, blk: Block)
    requires SettledGraph(met, cfg) && Live(cfg, b) && !NopOnly(cfg[b]) && Edge(cfg[b], y) && Fresh(met, cfg, b, blk)
    requires Shaped(blk) && (blk.followTo >= 0 ==> Falls(cfg, b, blk.followTo)) && SameEdges(blk, cfg[b])
    ensures SettledGraph(met, SetCode(cfg, b, blk))
  {
    var r := SetCode(cfg, b, blk);
    RecodeEdit(cfg, 0, b, y, blk);
    EditWf(cfg, 0, b, y, blk, Kept, r);
    forall x | Live(r, x) ensures !r[x].protected {
      assert Live(cfg, x);
    }
    EditSettled(met, cfg, b, y, blk, Kept, r);
  }

  // ---- a branch is led ahead

  lemma {:induction false} PastMet(met: Meets, cfg: Cfg, y: nat)
    requires SettledGraph(met, cfg) && Live(cfg, y)
    ensures Goes(met, y, Past(cfg, y))
    decreases |cfg| - y
  {
    assert SettledBlock(met, cfg[y], y) && Shaped(cfg[y]);
    if NopOnly(cfg[y]) && y < cfg[y].followTo {
      assert cfg[y].ops[|cfg[y].ops| - 1].Nop?;
      assert Falls(cfg, y, cfg[y].followTo);
      PastMet(met, cfg, cfg[y].followTo);
      GoesOn(met, y, cfg[y].followTo, Past(cfg, y));
    }
  }

  /** Block t, met at y, leads on to e without doing anything, if v is set or not as z says. */
  ghost predicate LeadsOnTo(met: Meets, cfg: Cfg, y: int, t: int, e: int, v: Operand, z: bool) {
    && Live(cfg, y) && Live(cfg, t) && t in met(v, z, y) && Edge(cfg[t], e) && e in met(v, z, t)
    && Bare(cfg[t]) && !Plain(Last(cfg[t]))
    && (Last(cfg[t]).Jmp? || (Branches(Last(cfg[t])) && t !in met(v, z, e)))
  }

  /** Leading the way of block b ahead from y to e takes nothing away that is needed. */
  lemma AheadFine(met: Meets, cfg: Cfg, b: nat, y: nat, t: nat, e: int, z: bool)
    requires SettledGraph(met, cfg) && Live(cfg, b) && Branches(Last(cfg[b]))
    requires y == cfg[b].op2To == BlockWay(cfg[b], z)
    requires LeadsOnTo(met, cfg, y, t, e, Last(cfg[b]).cond, z) && t == Past(cfg, y)
    ensures Fine(cfg, 0, b, y, cfg[b].(op2To := e), Led(-1, e, -1, -1))
  {
    var v, blk := Last(cfg[b]).cond, cfg[b].(op2To := e);
    assert SettledBlock(met, cfg[b], b) && Shaped(cfg[b]) && Edge(cfg[b], y);
    assert y in met(v, z, y);
    OtherWay(met, cfg, b, y, z);
    if Edge(blk, y) {
      assert e == y;
      assert Last(cfg[t]).Jmp? && t != b && Shaped(cfg[t]);
      KeptIfStillLedTo(cfg, 0, b, y, t);
    }
    assert !NopOnly(cfg[b]) && Past(cfg, b) == b by {
      assert cfg[b].ops[|cfg[b].ops| - 1] == Last(cfg[b]);
    }
    if y == b {
      NotBack(met, cfg, b, z);
    }
    if y == 0 {
      WaysSpareEntry(met, cfg, b, z);
    }
  }

  /** A bare test does not lead back to itself. */
  lemma NotBack(met: Meets, cfg: Cfg, b: nat, z: bool)
    requires SettledGraph(met, cfg) && Live(cfg, b) && Branches(Last(cfg[b])) && BlockWay(cfg[b], z) == b
    ensures !Bare(cfg[b])
  {
    assert SettledBlock(met, cfg[b], b);
    assert b in met(Last(cfg[b]).cond, z, b);
  }

  lemma OtherWay(met: Meets, cfg: Cfg, b: nat, y: nat, z: bool)
    requires SettledGraph(met, cfg) && Live(cfg, b) && Branches(Last(cfg[b]))
    requires y == cfg[b].op2To == BlockWay(cfg[b], z)
    ensures cfg[b].followTo != y && cfg[b].extTo != y && cfg[b].op1To == -1
  {
    var v := Last(cfg[b]).cond;
    assert SettledBlock(met, cfg[b], b) && Shaped(cfg[b]);
    assert y in met(v, true, y) && y in met(v, false, y);
    assert BlockWay(cfg[b], !z) != y;
  }

  /** A branch does not lead to the entry if that is a bare test or jump. */
  lemma WaysSpareEntry(met: Meets, cfg: Cfg, b: nat, z: bool)
    requires SettledGraph(met, cfg) && Live(cfg, b) && Branches(Last(cfg[b])) && BlockWay(cfg[b], z) == 0
    ensures Bare(cfg[0]) ==> !Last(cfg[0]).Jmp? && !Branches(Last(cfg[0]))
  {
    assert Shaped(cfg[b]) && Edge(cfg[b], 0) && Shaped(cfg[0]);
    assert Bare(cfg[0]) ==> cfg[0].ops[0] == Last(cfg[0]);
    assert AllLeave0(met, cfg) ==> Leaves0(met, cfg[b]);
    assert 0 in met(Last(cfg[b]).cond, z, 0);
  }

  lemma AheadFresh(met: Meets, cfg: Cfg, b: nat, y: nat, t: nat, e: int, z: bool)
    requires SettledGraph(met, cfg) && Live(cfg, b) && Branches(Last(cfg[b]))
    requires y == cfg[b].op2To == BlockWay(cfg[b], z)
    requires LeadsOnTo(met, cfg, y, t, e, Last(cfg[b]).cond, z)
    ensures Fresh(met, cfg, b, cfg[b].(op2To := e))
  {
    var v, blk := Last(cfg[b]).cond, cfg[b].(op2To := e);
    assert SettledBlock(met, cfg[b], b) && Shaped(cfg[b]);
    OtherWay(met, cfg, b, y, z);
    assert e in met(v, z, y) && met(v, z, e) <= met(v, z, y);
    assert BlockWay(blk, z) == e && BlockWay(blk, !z) == BlockWay(cfg[b], !z);
    if Bare(blk) {
      assert Bare(cfg[b]) && y in met(v, z, b);
    }
    assert AllLeave0(met, cfg) ==> Leaves0(met, cfg[b]);
  }

  /** Where Ahead looks, if a variable that is set as z says has just been tested by b. */
  lemma HeadIsLast(cfg: Cfg, b: nat, y: nat, t: nat)
    requires Wf(cfg, 0) && Live(cfg, b) && Edge(cfg[b], y) && t == Past(cfg, y) < |cfg| && !Plain(Head(cfg[t]))
    ensures Live(cfg, y) && Live(cfg, t) && Shaped(cfg[t]) && Bare(cfg[t]) && Last(cfg[t]) == Head(cfg[t])
  {
    AheadIs(cfg, 0, b, y);
  }

  lemma ThreadLands(met: Meets, cfg: Cfg, b: nat, y: nat, t: nat, op: Op)
    requires SettledGraph(met, cfg) && Live(cfg, b) && op == Last(cfg[b]) && op.CondJmp? && Shaped(cfg[b])
    requires y == cfg[b].op2To && t == Past(cfg, y) < |cfg| && Ahead(op, cfg[t]) >= 0
    ensures LeadsOnTo(met, cfg, y, t, Ahead(op, cfg[t]), op.cond, op.nz)
  {
    AheadHeadReal(op, cfg[t]);
    assert Edge(cfg[b], y);
    HeadIsLast(cfg, b, y, t);
    PastMet(met, cfg, y);
    var e := Ahead(op, cfg[t]);
    assert SettledBlock(met, cfg[t], t) && t in met(op.cond, op.nz, y);
    if Branches(Last(cfg[t])) {
      assert Last(cfg[t]).cond == op.cond && e == BlockWay(cfg[t], op.nz);
    }
  }

  lemma ThreadSettled(met: Meets, cfg: Cfg, b: nat)
    requires SettledGraph(met, cfg) && Live(cfg, b) && Last(cfg[b]).CondJmp?
    ensures Safe(cfg, 0, b, ThreadRewriting(cfg, b)) && SettledGraph(met, Threaded(cfg, b))
    ensures Live(Threaded(cfg, b), b)
  {
    LastIsReal(cfg, 0, b);
    var w, y, op := ThreadRewriting(cfg, b), cfg[b].op2To, Last(cfg[b]);
    LedTo(cfg, 0, b, y);
    if w.Lead? {
      var t := Past(cfg, y);
      ThreadLands(met, cfg, b, y, t, op);
      AheadFine(met, cfg, b, y, t, Ahead(op, cfg[t]), op.nz);
      AheadFresh(met, cfg, b, y, t, Ahead(op, cfg[t]), op.nz);
      ThreadSensible(cfg, 0, b);
      LeadSettled(met, cfg, b, w);
      RedirectBlocks(cfg, 0, b, w.y, w.blk, w.add);
    }
  }

  lemma ZeroLands(met: Meets, cfg: Cfg, b: nat, y: nat, t: nat, op: Op)
    requires SettledGraph(met, cfg) && Live(cfg, b) && op == Last(cfg[b]) && op.JmpZnz? && Shaped(cfg[b])
    requires y == cfg[b].op2To && t == Past(cfg, y) < |cfg| && AheadOnZero(op, cfg[t]) >= 0
    ensures LeadsOnTo(met, cfg, y, t, AheadOnZero(op, cfg[t]), op.cond, false) && SameTest(op, cfg[t])
  {
    ZeroHeadReal(op, cfg[t]);
    assert Edge(cfg[b], y);
    HeadIsLast(cfg, b, y, t);
    PastMet(met, cfg, y);
    var e := AheadOnZero(op, cfg[t]);
    assert SettledBlock(met, cfg[b], b);
    assert SettledBlock(met, cfg[t], t) && t in met(op.cond, false, y);
    if Branches(Last(cfg[t])) {
      assert Last(cfg[t]).cond == op.cond && e == BlockWay(cfg[t], false);
    }
  }

  lemma ZeroSettled(met: Meets, cfg: Cfg, b: nat)
    requires SettledGraph(met, cfg) && Live(cfg, b) && Last(cfg[b]).JmpZnz?
    ensures Safe(cfg, 0, b, ZeroRewriting(cfg, b)) && NoMistake(cfg, b)
    ensures |cfg[b].ops| > 0 && SettledGraph(met, Apply(cfg, b, ZeroRewriting(cfg, b)))
  {
    LastIsReal(cfg, 0, b);
    var w, y, op := ZeroRewriting(cfg, b), cfg[b].op2To, Last(cfg[b]);
    LedTo(cfg, 0, b, y);
    var t := Past(cfg, y);
    if w.Lead? {
      ZeroLands(met, cfg, b, y, t, op);
      AheadFine(met, cfg, b, y, t, AheadOnZero(op, cfg[t]), false);
      AheadFresh(met, cfg, b, y, t, AheadOnZero(op, cfg[t]), false);
      ZeroSensible(cfg, 0, b);
      LeadSettled(met, cfg, b, w);
    }
  }

  // ---- what a branch falls to is looked at

  lemma SkipSettled(met: Meets, cfg: Cfg, b: nat)
    requires SettledGraph(met, cfg) && Live(cfg, b) && Last(cfg[b]).CondJmp? && SkipRewriting(cfg, b).Lead?
    ensures Safe(cfg, 0, b, SkipRewriting(cfg, b)) && |cfg[b].ops| > 0
    ensures var r := Apply(cfg, b, SkipRewriting(cfg, b)); SettledGraph(met, r) && Live(r, b)
  {
    LastIsReal(cfg, 0, b);
    var w, y, op := SkipRewriting(cfg, b), cfg[b].followTo, Last(cfg[b]);
    var g := cfg[y].followTo;
    LedTo(cfg, 0, b, y);
    assert Falls(cfg, b, y) && SettledBlock(met, cfg[b], b) && SettledBlock(met, cfg[y], y);
    FollowDiffers(met, cfg, b);
    FollowFresh(met, cfg, b, y, g, w.blk);
    SkipSensible(cfg, 0, b);
    LeadSettled(met, cfg, b, w);
    RedirectBlocks(cfg, 0, b, w.y, w.blk, w.add);
  }

  lemma FollowDiffers(met: Meets, cfg: Cfg, b: nat)
    requires SettledGraph(met, cfg) && Live(cfg, b) && Last(cfg[b]).CondJmp?
    ensures cfg[b].followTo != cfg[b].op2To && cfg[b].op1To == -1 && cfg[b].extTo == -1
  {
    var v, y := Last(cfg[b]).cond, cfg[b].followTo;
    assert SettledBlock(met, cfg[b], b) && Shaped(cfg[b]);
    assert y in met(v, true, y) && y in met(v, false, y);
  }

  /** The other way of a branch goes on to e, to which control is sure to come from y. */
  lemma FollowFresh(met: Meets, cfg: Cfg, b: nat, y: nat, e: int, blk: Block)
    requires SettledGraph(met, cfg) && Live(cfg, b) && Last(cfg[b]).CondJmp? && y == cfg[b].followTo && Live(cfg, y)
    requires Goes(met, y, e) && Branches(Last(blk)) && Last(blk).cond == Last(cfg[b]).cond
    requires BlockWay(blk, Last(cfg[b]).nz) == cfg[b].op2To && BlockWay(blk, !Last(cfg[b]).nz) == e
    requires |blk.ops| == |cfg[b].ops|
    requires forall i {:trigger blk.ops[i]} {:trigger cfg[b].ops[i]} :: 0 <= i < |blk.ops| - 1 ==>
      blk.ops[i] == cfg[b].ops[i]
    requires b == 0 && cfg[0].ops[0].CondJmp? && !EntryFree(cfg) ==> !Opening(cfg[y])
    ensures Fresh(met, cfg, b, blk)
  {
    var op := Last(cfg[b]);
    var v, nz := op.cond, op.nz;
    assert SettledBlock(met, cfg[b], b) && Shaped(cfg[b]);
    assert e in met(v, !nz, y) && met(v, !nz, e) <= met(v, !nz, y);
    assert BlockWay(cfg[b], nz) == cfg[b].op2To && BlockWay(cfg[b], !nz) == y;
    if Bare(blk) {
      assert Bare(cfg[b]);
    }
    assert AllLeave0(met, cfg) ==> Leaves0(met, cfg[b]);
  }

  lemma FuseSettled(met: Meets, cfg: Cfg, b: nat)
    requires SettledGraph(met, cfg) && Live(cfg, b) && Last(cfg[b]).CondJmp?
    ensures Safe(cfg, 0, b, FuseRewriting(cfg, b)) && |cfg[b].ops| > 0 && SettledGraph(met, FuseNext(cfg, b))
  {
    LastIsReal(cfg, 0, b);
    var w := FuseRewriting(cfg, b);
    if w.Lead? {
      FuseFine(met, cfg, b, w);
      FuseFresh(met, cfg, b, w);
      FuseSensible(cfg, 0, b);
      LeadSettled(met, cfg, b, w);
    }
  }

  lemma FuseFine(met: Meets, cfg: Cfg, b: nat, w: Rewriting)
    requires SettledGraph(met, cfg) && Live(cfg, b) && Last(cfg[b]).CondJmp? && w == FuseRewriting(cfg, b) && w.Lead?
    ensures Fine(cfg, 0, b, w.y, w.blk, w.add) && Goes(met, w.y, cfg[w.y].op1To)
    ensures w.y == cfg[b].followTo && Live(cfg, w.y) && !Opening(cfg[w.y])
  {
    var y := w.y;
    FuseLeads(cfg, 0, b);
    assert Shaped(cfg[b]);
    assert Past(cfg, y) == y;
    HeadIsLast(cfg, b, y, y);
    assert SettledBlock(met, cfg[y], y);
    FollowDiffers(met, cfg, b);
    FuseWays(cfg, b, w);
    if Edge(w.blk, y) {
      KeptIfStillLedTo(cfg, 0, b, y, y);
    }
    assert y != 0 by {
      assert Falls(cfg, b, y);
    }
  }

  lemma FuseFresh(met: Meets, cfg: Cfg, b: nat, w: Rewriting)
    requires SettledGraph(met, cfg) && Live(cfg, b) && Last(cfg[b]).CondJmp? && w == FuseRewriting(cfg, b) && w.Lead?
    requires w.y == cfg[b].followTo && Live(cfg, w.y) && Goes(met, w.y, cfg[w.y].op1To) && !Opening(cfg[w.y])
    ensures Fresh(met, cfg, b, w.blk)
  {
    assert Shaped(cfg[b]);
    FollowFresh(met, cfg, b, w.y, cfg[w.y].op1To, w.blk);
  }

  lemma SkipOne(met: Meets, cfg: Cfg, b: nat) returns (r: Cfg)
    requires SettledGraph(met, cfg) && Live(cfg, b) && Last(cfg[b]).CondJmp? && |cfg[b].ops| > 0
    requires SkipRewriting(cfg, b).Lead?
    ensures SettledGraph(met, r) && Live(r, b) && Last(r[b]).CondJmp? && |r[b].ops| > 0
    ensures |r| == |cfg| && r[b].followTo > cfg[b].followTo
    ensures SkipAll(cfg, b) == SkipAll(r, b) && (SteadyFollow(r, 0, b) ==> SteadyFollow(cfg, 0, b))
  {
    r := Apply(cfg, b, SkipRewriting(cfg, b));
    SkipSettled(met, cfg, b);
    SkipUnfolds(cfg, b, r);
  }

  lemma SkipUnfolds(cfg: Cfg, b: nat, r: Cfg)
    requires b < |cfg| && Last(cfg[b]).CondJmp? && |cfg[b].ops| > 0 && SkipRewriting(cfg, b).Lead?
    requires r == Apply(cfg, b, SkipRewriting(cfg, b)) && Safe(cfg, 0, b, SkipRewriting(cfg, b))
    ensures |r| == |cfg| && Last(r[b]).CondJmp? && |r[b].ops| > 0 && r[b].followTo > cfg[b].followTo
    ensures SkipAll(cfg, b) == SkipAll(r, b) && (SteadyFollow(r, 0, b) ==> SteadyFollow(cfg, 0, b))
  {
    SkipCode(cfg, b);
  }

  lemma {:induction false} FollowSettled(met: Meets, cfg: Cfg, b: nat)
    requires SettledGraph(met, cfg) && Live(cfg, b) && Last(cfg[b]).CondJmp? && |cfg[b].ops| > 0
    ensures SteadyFollow(cfg, 0, b) && SettledGraph(met, FuseNext(SkipAll(cfg, b), b))
    decreases |cfg| - cfg[b].followTo
  {
    if SkipRewriting(cfg, b).Lead? {
      var r := SkipOne(met, cfg, b);
      FollowSettled(met, r, b);
    } else {
      FuseSettled(met, cfg, b);
    }
  }

  lemma BranchSettled(met: Meets, cfg: Cfg, b: nat)
    requires SettledGraph(met, cfg) && Live(cfg, b) && Last(cfg[b]).CondJmp?
    ensures Tame(cfg, 0, b) && SettledGraph(met, JmpOptimize(cfg, b))
  {
    LastIsReal(cfg, 0, b);
    assert SettledBlock(met, cfg[b], b);
    ThreadSettled(met, cfg, b);
    SafeStays(cfg, 0, b);
    FollowSettled(met, Threaded(cfg, b), b);
  }

  // ---- JMPZNZ

  lemma SplitCaseSettled(met: Meets, cfg: Cfg, b: nat)
    requires SettledGraph(met, cfg) && Live(cfg, b) && Last(cfg[b]).JmpZnz?
    requires 0 <= cfg[b].op2To < |cfg| && 0 <= cfg[b].extTo < |cfg|
    ensures cfg[b].op2To != cfg[b].extTo && !Last(cfg[b]).cond.Const? && !SplitRewriting(cfg, b).Lead?
    ensures var w := SplitRewriting(cfg, b); w.Recode? ==> |cfg[b].ops| > 0 && SettledGraph(met, Apply(cfg, b, w))
  {
    LastIsReal(cfg, 0, b);
    var op, y := Last(cfg[b]), cfg[b].op2To;
    assert SettledBlock(met, cfg[b], b);
    assert y in met(op.cond, true, y) && y in met(op.cond, false, y);
    var w := SplitRewriting(cfg, b);
    if w.Recode? {
      SplitRecodeFacts(AnyWill(), cfg, b, op, w.blk);
      SplitFresh(met, cfg, b, w.blk);
      RecodeSettled(met, cfg, b, y, w.blk);
    }
  }

  function AnyWill(): Env { Env(t => Throws, (t, n) => 0) }

  lemma SplitFresh(met: Meets, cfg: Cfg, b: nat, blk: Block)
    requires SettledGraph(met, cfg) && Live(cfg, b) && Last(cfg[b]).JmpZnz? && cfg[b].op2To != cfg[b].extTo
    requires 0 <= cfg[b].op2To < |cfg| && 0 <= cfg[b].extTo < |cfg| && SplitRewriting(cfg, b) == Recode(blk)
    ensures Fresh(met, cfg, b, blk)
  {
    assert SettledBlock(met, cfg[b], b) && Shaped(cfg[b]);
    assert BlockWay(blk, true) == BlockWay(cfg[b], true) && BlockWay(blk, false) == BlockWay(cfg[b], false);
    assert forall i {:trigger cfg[b].ops[i]} :: 0 <= i < |blk.ops| - 1 ==> blk.ops[i] == cfg[b].ops[i];
    assert Bare(blk) ==> Bare(cfg[b]);
    assert AllLeave0(met, cfg) ==> Leaves0(met, cfg[b]);
  }

  lemma ZnzSettled(met: Meets, cfg: Cfg, b: nat)
    requires SettledGraph(met, cfg) && Live(cfg, b) && Last(cfg[b]).JmpZnz?
    ensures Tame(cfg, 0, b) && SettledGraph(met, JmpOptimize(cfg, b))
  {
    LastIsReal(cfg, 0, b);
    LedTo(cfg, 0, b, cfg[b].op2To);
    LedTo(cfg, 0, b, cfg[b].extTo);
    SplitCaseSettled(met, cfg, b);
    SplitKeepsBlock(cfg, 0, b);
    if SplitRewriting(cfg, b).Leave? {
      ZeroSettled(met, cfg, b);
    }
  }

  // ---- JMP

  lemma JumpFresh(met: Meets, cfg: Cfg, b: nat, t: nat, blk: Block)
    requires SettledGraph(met, cfg) && Live(cfg, b) && Last(cfg[b]).Jmp? && cfg[b].op1To == t < |cfg| && Live(cfg, t)
    requires JumpRewriting(cfg, b).Lead? && JumpRewriting(cfg, b).y == t && JumpRewriting(cfg, b).blk == blk
    ensures Fresh(met, cfg, b, blk)
  {
    JumpLeadIs(cfg, 0, b, t, blk);
    var op := cfg[t].ops[0];
    assert SettledBlock(met, cfg[b], b) && SettledBlock(met, cfg[t], t) && Shaped(cfg[b]) && Shaped(cfg[t]);
    assert Last(cfg[t]) == op && Last(blk) == op && Bare(cfg[t]);
    assert Bare(blk) ==> Bare(cfg[b]);
    if op.JmpZnz? {
      SameWays(blk, cfg[t]);
      if Bare(blk) {
        BareBranchMoved(met, cfg[t], blk, b, t);
      }
      assert AllLeave0(met, cfg) ==> Leaves0(met, cfg[t]);
    } else if op.Jmp? && Bare(blk) {
      GoesOn(met, b, t, cfg[t].op1To);
    }
    assert Opening(cfg[b]) ==> |cfg[b].ops| > 1 && blk.ops[0] == cfg[b].ops[0];
  }

  lemma JumpSpares(met: Meets, cfg: Cfg, b: nat)
    requires SettledGraph(met, cfg) && Live(cfg, b) && Last(cfg[b]).Jmp? && cfg[b].op1To == 0
    ensures !JumpRewriting(cfg, b).Lead?
  {
    assert Shaped(cfg[b]) && Edge(cfg[b], 0);
  }

  // ---- a block that only passes control on is deleted

  lemma MovedSettledBlock(met: Meets, blk: Block, r: Block, b: nat, to: nat, x: int)
    requires Closed(met) && SettledBlock(met, blk, x) && Goes(met, b, to) && SameCode(r, Moved(blk, b, to))
    ensures SettledBlock(met, r, x)
  {
    if NopOnly(blk) && blk.followTo == b {
      GoesOn(met, x, b, to);
    } else if Bare(blk) && Last(blk).Jmp? && blk.op1To == b {
      GoesOn(met, x, b, to);
    } else if Branches(Last(blk)) {
      var v := Last(blk).cond;
      forall z: bool ensures BlockWay(r, z) == Aim(BlockWay(blk, z), b, to)
        && BlockWay(r, z) in met(v, z, BlockWay(blk, z)) && met(v, z, BlockWay(r, z)) <= met(v, z, BlockWay(blk, z))
      {
        assert to in met(v, z, b) && BlockWay(blk, z) in met(v, z, BlockWay(blk, z));
      }
      MovedBare(met, blk, r, x);
    }
  }

  lemma MovedBare(met: Meets, blk: Block, r: Block, x: int)
    requires Closed(met) && SettledBlock(met, blk, x) && Branches(Last(blk)) && blk.ops == r.ops
    requires forall z: bool {:trigger BlockWay(r, z)} ::
      BlockWay(r, z) in met(Last(blk).cond, z, BlockWay(blk, z))
    ensures SettledBlock(met, r, x)
  {
    var v := Last(blk).cond;
    forall z: bool ensures met(v, z, BlockWay(r, z)) <= met(v, z, BlockWay(blk, z)) {
      assert BlockWay(r, z) in met(v, z, BlockWay(blk, z));
    }
    assert BlockWay(r, true) in met(v, true, BlockWay(blk, true));
    assert BlockWay(r, false) in met(v, false, BlockWay(blk, false));
  }

  lemma MovedLeaves0(met: Meets, blk: Block, r: Block, b: nat, to: nat)
    requires Closed(met) && Leaves0(met, blk) && Goes(met, b, to) && SameCode(r, Moved(blk, b, to))
    ensures Leaves0(met, r)
  {
    if Branches(Last(blk)) {
      var v := Last(blk).cond;
      forall z: bool ensures 0 !in met(v, z, BlockWay(r, z)) {
        assert BlockWay(r, z) == Aim(BlockWay(blk, z), b, to);
        assert to in met(v, z, b) && 0 !in met(v, z, BlockWay(blk, z));
      }
    }
  }

  lemma DeleteSettled(met: Meets, cfg: Cfg, b: nat, to: nat, cfg1: Cfg)
    requires SettledGraph(met, cfg) && Deletes(cfg, 0, b, to, cfg1)
    ensures b != 0 && SettledGraph(met, DeleteBlock(cfg1, b, to))
  {
    var r := DeleteBlock(cfg1, b, to);
    assert SettledBlock(met, cfg[b], b) && b != 0 && Goes(met, b, to);
    DeleteWf(cfg, 0, b, to, cfg1);
    DeleteFacts(cfg, 0, b, to, cfg1);
    forall x | Live(r, x) ensures SettledBlock(met, r[x], x) {
      assert Live(cfg, x) && SettledBlock(met, cfg[x], x);
      MovedSettledBlock(met, cfg[x], r[x], b, to, x);
    }
    DeleteUnprotected(met, cfg, b, to, cfg1);
    DeleteEntry(met, cfg, b, to, cfg1, r);
  }

  lemma DeleteUnprotected(met: Meets, cfg: Cfg, b: nat, to: nat, cfg1: Cfg)
    requires SettledGraph(met, cfg) && Deletes(cfg, 0, b, to, cfg1)
    ensures Unprotected(DeleteBlock(cfg1, b, to))
  {
    var r := DeleteBlock(cfg1, b, to);
    DeleteFacts(cfg, 0, b, to, cfg1);
    MoveSourcesMarks(cfg1, cfg1[b].sources, b, to);
    forall x | Live(r, x) ensures !r[x].protected {
      var z: nat := x;
      assert Live(cfg, x) && r[z].protected == cfg1[z].protected == cfg[z].protected;
    }
  }

  lemma DeleteEntry(met: Meets, cfg: Cfg, b: nat, to: nat, cfg1: Cfg, r: Cfg)
    requires SettledGraph(met, cfg) && Deletes(cfg, 0, b, to, cfg1) && b != 0 && Goes(met, b, to)
    requires r == DeleteBlock(cfg1, b, to)
    ensures EntrySettled(met, r)
  {
    DeleteFacts(cfg, 0, b, to, cfg1);
    assert Live(r, 0) && SameCode(r[0], Moved(cfg[0], b, to));
    if EntryFree(cfg) {
      forall x | Live(r, x) ensures !Edge(r[x], 0) {
        assert Live(cfg, x) && SameCode(r[x], Moved(cfg[x], b, to));
      }
    } else if cfg[0].ops[0].CondJmp? {
      var y := cfg[0].followTo;
      assert y != b && Live(r, y) && SameCode(r[y], Moved(cfg[y], b, to));
      forall x | Live(r, x) ensures Leaves0(met, r[x]) {
        assert Live(cfg, x) && Leaves0(met, cfg[x]);
        MovedLeaves0(met, cfg[x], r[x], b, to);
      }
    }
  }

  lemma JumpSettled(met: Meets, cfg: Cfg, b: nat)
    requires SettledGraph(met, cfg) && Live(cfg, b) && Last(cfg[b]).Jmp?
    ensures Tame(cfg, 0, b) && RootAfterCall(cfg, 0, b) == 0 && SettledGraph(met, JmpOptimize(cfg, b))
  {
    LastIsReal(cfg, 0, b);
    LedTo(cfg, 0, b, cfg[b].op1To);
    JumpFits(cfg, 0, b);
    var w, t := JumpRewriting(cfg, b), cfg[b].op1To;
    match w
    case Lead(y, blk, add) =>
      JumpSafe(cfg, 0, b);
      if t == 0 {
        JumpSpares(met, cfg, b);
      }
      JumpFresh(met, cfg, b, t, blk);
      LeadSettled(met, cfg, b, w);
    case DropJump(to) =>
      DropSettled(met, cfg, b, to);
    case _ =>
  }

  lemma DropSettled(met: Meets, cfg: Cfg, b: nat, to: nat)
    requires SettledGraph(met, cfg) && Live(cfg, b) && Last(cfg[b]).Jmp? && cfg[b].op1To == to && Falls(cfg, b, to)
    ensures |cfg[b].ops| > 0 && (|cfg[b].ops| == 1 ==> b != 0 && !cfg[b].protected)
    ensures SettledGraph(met, Apply(cfg, b, DropJump(to)))
  {
    LastIsReal(cfg, 0, b);
    var blk := Fallen(cfg[b], to);
    if |cfg[b].ops| == 1 {
      DeleteSettled(met, cfg, b, to, SetCode(cfg, b, blk));
    } else {
      assert Good(AnyWill(), cfg, 0, b, DropJump(to));
      FallenMatches(AnyWill(), cfg, 0, b, to);
      FallenFresh(met, cfg, b, to, blk);
      assert Edge(cfg[b], to);
      RecodeSettled(met, cfg, b, to, blk);
    }
  }

  lemma FallenFresh(met: Meets, cfg: Cfg, b: nat, to: nat, blk: Block)
    requires SettledGraph(met, cfg) && Live(cfg, b) && Last(cfg[b]).Jmp? && cfg[b].op1To == to && |cfg[b].ops| > 1
    requires blk == Fallen(cfg[b], to)
    ensures Fresh(met, cfg, b, blk)
  {
    assert SettledBlock(met, cfg[b], b) && Shaped(cfg[b]);
    var n := |blk.ops|;
    assert forall i {:trigger cfg[b].ops[i]} :: 0 <= i < n ==> blk.ops[i] == cfg[b].ops[i];
    assert Plain(cfg[b].ops[n - 1]);
    assert NopOnly(blk) ==> Bare(cfg[b]);
  }

  lemma CallSettled(met: Meets, cfg: Cfg, b: nat)
    requires SettledGraph(met, cfg) && Live(cfg, b)
    ensures Tame(cfg, 0, b) && RootAfterCall(cfg, 0, b) == 0 && SettledGraph(met, JmpOptimize(cfg, b))
  {
    if Last(cfg[b]).Jmp? {
      JumpSettled(met, cfg, b);
    } else if Last(cfg[b]).CondJmp? {
      BranchSettled(met, cfg, b);
    } else if Last(cfg[b]).JmpZnz? {
      ZnzSettled(met, cfg, b);
    }
  }

  // ---- stripping NOPs

  lemma {:induction false} RealIsLast(ops: seq<Op>)
    requires |ops| > 0 && !Plain(ops[|ops| - 1])
    ensures |Real(ops)| > 0 && Real(ops)[|Real(ops)| - 1] == ops[|ops| - 1]
    ensures |Real(ops)| == 1 ==> forall i {:trigger ops[i]} :: 0 <= i < |ops| - 1 ==> ops[i].Nop?
  {
    if |ops| > 1 {
      RealIsLast(ops[1..]);
      assert forall i {:trigger ops[i]} :: 0 < i < |ops| - 1 ==> ops[i] == ops[1..][i - 1];
    }
  }

  lemma {:induction false} RealPlain(ops: seq<Op>)
    requires |ops| > 0 && forall i {:trigger ops[i]} :: 0 <= i < |ops| ==> Plain(ops[i])
    ensures forall i {:trigger Real(ops)[i]} :: 0 <= i < |Real(ops)| ==> Plain(Real(ops)[i])
  {
    if |ops| > 1 {
      RealPlain(ops[1..]);
    }
  }

  lemma StrippedFirst(blk: Block, r: Block)
    requires |blk.ops| > 0 && !NopOnly(blk) && r.ops == Real(blk.ops)
    ensures |r.ops| > 0 && !r.ops[0].Nop? && (Opening(blk) ==> r.ops[0] == blk.ops[0])
  {
    RealFacts(blk.ops);
    if Real(blk.ops) != [] {
      assert !Real(blk.ops)[0].Nop?;
    }
  }

  lemma StrippedLast(blk: Block, r: Block)
    requires Shaped(blk) && r.ops == Real(blk.ops) && |r.ops| > 0 && !r.ops[0].Nop?
    ensures if Plain(Last(blk)) then Plain(Last(r)) else Last(r) == Last(blk) && (Bare(r) ==> Bare(blk))
  {
    if Plain(Last(blk)) {
      AllPlain(blk);
      RealPlain(blk.ops);
    } else {
      RealIsLast(blk.ops);
      if |r.ops| > 1 {
        NotBare(r);
      }
    }
  }

  lemma AllPlain(blk: Block)
    requires Shaped(blk) && Plain(Last(blk))
    ensures forall i {:trigger blk.ops[i]} :: 0 <= i < |blk.ops| ==> Plain(blk.ops[i])
  {
  }

  lemma NotBare(r: Block)
    requires |r.ops| > 1 && !r.ops[0].Nop?
    ensures !Bare(r)
  {
  }

  lemma StrippedSettled(met: Meets, blk: Block, r: Block, x: int)
    requires Shaped(blk) && SettledBlock(met, blk, x) && !NopOnly(blk) && r == blk.(ops := Real(blk.ops))
    ensures SettledBlock(met, r, x) && (Leaves0(met, blk) ==> Leaves0(met, r))
    ensures Opening(blk) ==> r.ops[0] == blk.ops[0]
  {
    StrippedFirst(blk, r);
    StrippedLast(blk, r);
    assert !NopOnly(r);
    if Branches(Last(blk)) {
      SameWays(r, blk);
    }
  }

  /** The graph with other ops in block b. */
  lemma WithOpsSettled(met: Meets, cfg: Cfg, b: nat, ops: seq<Op>)
    requires SettledGraph(met, cfg) && Live(cfg, b) && Wf(WithOps(cfg, b, ops), 0)
    requires SettledBlock(met, cfg[b].(ops := ops), b) && (Leaves0(met, cfg[b]) ==> Leaves0(met, cfg[b].(ops := ops)))
    requires Opening(cfg[b]) ==> |ops| > 0 && ops[0] == cfg[b].ops[0]
    ensures SettledGraph(met, WithOps(cfg, b, ops))
  {
    var r := WithOps(cfg, b, ops);
    assert forall x {:trigger Live(r, x)} {:trigger Live(cfg, x)} :: Live(r, x) <==> Live(cfg, x);
    forall x | Live(r, x) ensures SettledBlock(met, r[x], x) && !r[x].protected {
      assert Live(cfg, x);
    }
    if EntryFree(cfg) {
      assert EntryFree(r);
    } else if cfg[0].ops[0].CondJmp? {
      forall x | Live(r, x) ensures Leaves0(met, r[x]) {
        assert Live(cfg, x);
      }
    }
  }

  lemma StripSettled(met: Meets, cfg: Cfg, b: nat)
    requires SettledGraph(met, cfg) && Live(cfg, b)
    ensures SettledGraph(met, StripNop(cfg, b)) && RootAfterStrip(cfg, 0, b) == 0
  {
    assert SettledBlock(met, cfg[b], b) && Shaped(cfg[b]) && !cfg[b].protected;
    if !NopOnly(cfg[b]) {
      StripPreserves(AnyWill(), cfg, 0, b);
      StrippedSettled(met, cfg[b], cfg[b].(ops := Real(cfg[b].ops)), b);
      WithOpsSettled(met, cfg, b, Real(cfg[b].ops));
    } else {
      StripBlock(met, cfg, b);
    }
  }

  lemma StripBlock(met: Meets, cfg: Cfg, b: nat)
    requires SettledGraph(met, cfg) && Live(cfg, b) && NopOnly(cfg[b])
    ensures b != 0 && SettledGraph(met, StripNop(cfg, b))
  {
    assert SettledBlock(met, cfg[b], b) && Shaped(cfg[b]) && !cfg[b].protected && !Opening(cfg[b]);
    assert cfg[b].ops[|cfg[b].ops| - 1].Nop?;
    var r := WithOps(cfg, b, [Nop]);
    OneNopPreserves(AnyWill(), cfg, 0, b);
    WithOpsSettled(met, cfg, b, [Nop]);
    assert Live(r, b) && Falls(r, b, r[b].followTo) && r[b].ops[0].Nop?;
    DeleteSettled(met, r, b, r[b].followTo, r);
  }

  // ---- rounds

  lemma EntryIsFirst(met: Meets, cfg: Cfg)
    requires SettledGraph(met, cfg)
    ensures NextLive(cfg, -1) == 0
  {
  }

  lemma {:induction false} StripFromSettled(met: Meets, cfg: Cfg, j: nat)
    requires SettledGraph(met, cfg)
    ensures SettledGraph(met, StripFrom(cfg, j)) && StrippedRoot(cfg, 0, j) == 0
    decreases |cfg| - j
  {
    if j < |cfg| {
      if cfg[j].access {
        StripSettled(met, cfg, j);
        StripFromSettled(met, StripNop(cfg, j), j + 1);
      } else {
        StripFromSettled(met, cfg, j + 1);
      }
    }
  }

  lemma {:induction false} JmpFromSettled(met: Meets, cfg: Cfg, j: nat)
    requires SettledGraph(met, cfg)
    ensures TameFrom(cfg, 0, j) && SettledGraph(met, JmpFrom(cfg, j))
    decreases |cfg| - j
  {
    if j < |cfg| {
      if cfg[j].access {
        CallSettled(met, cfg, j);
        JmpFromSettled(met, JmpOptimize(cfg, j), j + 1);
      } else {
        JmpFromSettled(met, cfg, j + 1);
      }
    }
  }

  lemma PrunedSettled(met: Meets, cfg: Cfg, r: Cfg)
    requires SettledGraph(met, cfg) && Prunes(cfg, 0, 0, r)
    ensures SettledGraph(met, r)
  {
    PrunedWf(cfg, 0, 0, r);
    forall x | Live(r, x)
      ensures Live(cfg, x) && SettledBlock(met, r[x], x) && !r[x].protected
      ensures Leaves0(met, cfg[x]) ==> Leaves0(met, r[x])
    {
      StaysLive(cfg, 0, 0, r, x);
      var z: nat := x;
      assert SameCode(r[z], cfg[z]) && r[z].protected == cfg[z].protected;
      SameCodeSettled(met, cfg[x], r[x], x);
    }
    PrunedEntry(met, cfg, r);
  }

  lemma PrunedEntry(met: Meets, cfg: Cfg, r: Cfg)
    requires SettledGraph(met, cfg) && Prunes(cfg, 0, 0, r) && Wf(r, 0)
    requires forall x {:trigger Live(r, x)} :: Live(r, x) ==>
      Live(cfg, x) && (Leaves0(met, cfg[x]) ==> Leaves0(met, r[x]))
    ensures EntrySettled(met, r)
  {
    assert SameCode(r[0], cfg[0]) && Shaped(r[0]) && Live(r, 0);
    if EntryFree(cfg) {
      forall x | Live(r, x) ensures !Edge(r[x], 0) {
        var z: nat := x;
        assert SameCode(r[z], cfg[z]);
      }
    } else if cfg[0].ops[0].CondJmp? {
      var y: nat := cfg[0].followTo;
      assert |r[0].ops| == 1 && Falls(r, 0, y) && SameCode(r[y], cfg[y]);
    }
  }

  lemma RoundSettled(met: Meets, cfg: Cfg, r: Cfg)
    requires SettledGraph(met, cfg)
    ensures Ready(cfg)
    ensures Round(cfg, r) ==> SettledGraph(met, r)
  {
    EntryIsFirst(met, cfg);
    StripFromSettled(met, cfg, 0);
    var s := StripFrom(cfg, 0);
    JmpFromSettled(met, s, 0);
    var t := JmpFrom(s, 0);
    EntryIsFirst(met, t);
    if Round(cfg, r) {
      PrunedSettled(met, t, r);
    }
  }

  lemma ChainShorter(ops: seq<Op>, g: Cfg, rs: seq<Cfg>)
    requires Chain(ops, g, rs) && |rs| > 1
    ensures var q := rs[..|rs| - 1]; Chain(ops, g, q) && q[|q| - 1] == rs[|rs| - 2]
    ensures Round(rs[|rs| - 2], rs[|rs| - 1])
  {
    var i, j := |rs| - 2, |rs| - 1;
    assert Round(rs[i], rs[j]);
  }

  lemma {:induction false} ChainSettled(ops: seq<Op>, met: Meets, g: Cfg, rs: seq<Cfg>)
    requires Chain(ops, g, rs) && Settled(ops, met)
    ensures SettledGraph(met, rs[|rs| - 1]) && Ready(rs[|rs| - 1])
    decreases |rs|
  {
    if |rs| == 1 {
      SplitSettled(ops, met, g, rs[0]);
      RoundSettled(met, rs[0], rs[0]);
    } else {
      ChainShorter(ops, g, rs);
      ChainSettled(ops, met, g, rs[..|rs| - 1]);
      RoundSettled(met, rs[|rs| - 2], rs[|rs| - 1]);
      RoundSettled(met, rs[|rs| - 1], rs[|rs| - 1]);
    }
  }

  /** What the pass relies on holds for such code, in every round, whatever is threaded, skipped or fused. */
  lemma SettledIsTame(ops: seq<Op>, met: Meets)
    requires Settled(ops, met)
    ensures AllTame(ops)
  {
    forall g: Cfg, rs: seq<Cfg> | Chain(ops, g, rs) && |rs| <= PASSES ensures Ready(rs[|rs| - 1]) {
      ChainSettled(ops, met, g, rs);
    }
  }

  // ---- code of this kind

  /** A; while ($a) { do { f(); } while ($b); g(); } */
  const LOOPS: seq<Op> := [
    Exec(1, Unused, Unused, Unused, NoResult),
    CondJmp(false, Cv(0), 6),
    Exec(2, Unused, Unused, Unused, NoResult),
    CondJmp(true, Cv(1), 2),
    Exec(3, Unused, Unused, Unused, NoResult),
    Jmp(1),
    Return(Unused)]

  function MetInLoops(v: Operand, z: bool, i: int): set<int> {
    if i == 3 && v == Cv(1) then {3, if z then 2 else 4}
    else if i == 1 || i == 5 then {1, i} + if v == Cv(0) then {if z then 2 else 6} else {}
    else {i}
  }

  lemma LoopsAreTame()
    ensures AllTame(LOOPS)
  {
    assert Closed(MetInLoops);
    SettledIsTame(LOOPS, MetInLoops);
  }

  /** function f() { while ($a) { g(); } } */
  const FIRST_LOOP: seq<Op> := [
    CondJmp(false, Cv(0), 3),
    Exec(1, Unused, Unused, Unused, NoResult),
    Jmp(0),
    Return(Unused)]

  function MetInFirstLoop(v: Operand, z: bool, i: int): set<int> {
    if i == 0 || i == 2 then {0, i} + if v == Cv(0) then {if z then 1 else 3} else {} else {i}
  }

  /** A loop at the entry. */
  lemma FirstLoopIsTame()
    ensures AllTame(FIRST_LOOP)
  {
    assert Closed(MetInFirstLoop);
    SettledIsTame(FIRST_LOOP, MetInFirstLoop);
  }

  /** A; while ($a) { if ($b) { f(); } } */
  const IF_IN_LOOP: seq<Op> := [
    Exec(1, Unused, Unused, Unused, NoResult),
    CondJmp(false, Cv(0), 6),
    CondJmp(false, Cv(1), 5),
    Exec(2, Unused, Unused, Unused, NoResult),
    Jmp(5),
    Jmp(1),
    Return(Unused)]

  function MetAtTop(v: Operand, z: bool): set<int> {
    if v == Cv(0) then {1, if z then 2 else 6} else {1}
  }

  function MetInIf(v: Operand, z: bool, i: int): set<int> {
    if i == 1 then MetAtTop(v, z)
    else if i == 4 then {4, 5} + MetAtTop(v, z)
    else if i == 5 then {5} + MetAtTop(v, z)
    else if i == 2 && v == Cv(1) then if z then {2, 3} else {2, 5} + MetAtTop(v, z)
    else {i}
  }

  lemma MetInIfClosed()
    ensures Closed(MetInIf)
  {
  }

  /** Code in which a branch is led ahead: the one on $b, to the test at the top of the loop. */
  lemma IfInLoopIsTame(g: Cfg, r: Cfg)
    ensures AllTame(IF_IN_LOOP)
    ensures Splits(IF_IN_LOOP, g, r) ==>
      Live(r, 2) && Last(r[2]).CondJmp? && ThreadRewriting(r, 2) == Lead(5, r[2].(op2To := 1), Led(-1, 1, -1, -1))
  {
    MetInIfClosed();
    SettledIsTame(IF_IN_LOOP, MetInIf);
    if Splits(IF_IN_LOOP, g, r) {
      IfInLoopBlocks(g, r);
    }
  }

  lemma IfInLoopStarts()
    ensures IsStart(IF_IN_LOOP, 1) && IsStart(IF_IN_LOOP, 2) && IsStart(IF_IN_LOOP, 3) && IsStart(IF_IN_LOOP, 5)
    ensures IsStart(IF_IN_LOOP, 6)
  {
    var ops := IF_IN_LOOP;
    assert Targets(ops[5], 1) && Ends(ops[1]) && Ends(ops[2]) && Targets(ops[2], 5) && Targets(ops[1], 6);
  }

  lemma OneOp(ops: seq<Op>, blk: Block, t: nat)
    requires SplitAt(ops, blk, t) && IsStart(ops, t + 1) && t + 1 < |ops|
    ensures blk.ops == [ops[t]] && WaysFit(ops[t], t + 1, blk)
  {
    assert |blk.ops| == 1;
  }

  /** Block x, with one op, leads to block y. */
  lemma NextBlock(ops: seq<Op>, g: Cfg, r: Cfg, x: nat, y: nat)
    requires Splits(ops, g, r) && Wf(r, 0) && Live(r, x) && x + 1 < |ops| && IsStart(ops, x + 1)
    requires forall blk: Block {:trigger WaysFit(ops[x], x + 1, blk)} :: WaysFit(ops[x], x + 1, blk) ==> Edge(blk, y)
    ensures Live(r, y) && r[x].ops == [ops[x]] && WaysFit(ops[x], x + 1, r[x])
  {
    LiveSplit(ops, g, r, x);
    OneOp(ops, r[x], x);
    assert Edge(r[x], y);
  }

  lemma IfInLoopBlocks(g: Cfg, r: Cfg)
    requires Splits(IF_IN_LOOP, g, r)
    ensures Live(r, 2) && Last(r[2]).CondJmp? && ThreadRewriting(r, 2) == Lead(5, r[2].(op2To := 1), Led(-1, 1, -1, -1))
  {
    SplitWf(IF_IN_LOOP, g, r);
    IfInLoopStarts();
    NextBlock(IF_IN_LOOP, g, r, 0, 1);
    NextBlock(IF_IN_LOOP, g, r, 1, 2);
    NextBlock(IF_IN_LOOP, g, r, 2, 5);
    NextBlock(IF_IN_LOOP, g, r, 5, 1);
    LiveSplit(IF_IN_LOOP, g, r, 5);
    LedPastJump(r, 2, 5, 1);
  }

  lemma LedPastJump(r: Cfg, b: nat, t: nat, e: nat)
    requires b < |r| && t < |r| && r[b].ops == [CondJmp(false, Cv(1), t)] && r[b].op2To == t
    requires r[t].ops == [Jmp(e)] && r[t].op1To == e && !r[t].protected
    ensures ThreadRewriting(r, b) == Lead(t, r[b].(op2To := e), Led(-1, e, -1, -1))
  {
    assert FirstReal(r[t].ops) == 0 && Head(r[t]) == Jmp(e);
    assert !r[t].ops[0].Nop? && Past(r, t) == t;
  }
}
