/** Graphs on which zend_jmp_optimization goes wrong: the run from the entry changes. In the first five a rewriting is
    not safe, because del_source takes away a block that is still needed or the entry; in the last a JMPZNZ takes the
    test of another variable for its own. */
module BlockPassLimits {
  import opened Simulation
  import opened Machine
  import opened Cfgs
  import opened CfgEdit
  import opened Redirects
  import opened JmpOptimization

  function Blk(ops: seq<Op>, op1To: int, op2To: int, extTo: int, followTo: int, sources: seq<nat>): Block {
    Block(true, ops, op1To, op2To, extTo, followTo, sources, false)
  }

  /** Everything runs normally, and the compiled variables are as given. */
  function Calm(cv: int -> Value): Env { Env(t => Normal(0), (t, n) => cv(n)) }

  /** The run from the entry ends, and this is what has been seen. */
  ghost predicate Ends(env: Env, cfg: Cfg, root: int, o: Obs<Event>) {
    o.done && exists n: nat :: CObserve()(Run(CStepper(env, cfg), Enter(root), n)) == o
  }

  lemma Walk(env: Env, cfg: Cfg, s0: CState, s1: CState, s2: CState, s3: CState)
    requires CStep(env, cfg, s0) == s1 && CStep(env, cfg, s1) == s2 && CStep(env, cfg, s2) == s3
    ensures Run(CStepper(env, cfg), s0, 2) == s2 && Run(CStepper(env, cfg), s0, 3) == s3
  {
    var f := CStepper(env, cfg);
    assert Run(f, s0, 1) == f(Run(f, s0, 0));
    assert Run(f, s0, 2) == f(Run(f, s0, 1));
    assert Run(f, s0, 3) == f(Run(f, s0, 2));
  }

  lemma EndsIn3(env: Env, cfg: Cfg, root: int, s1: CState, s2: CState, s3: CState)
    requires CStep(env, cfg, Enter(root)) == s1 && CStep(env, cfg, s1) == s2 && CStep(env, cfg, s2) == s3 && s3.done
    ensures Ends(env, cfg, root, Obs(s3.trace, true))
  {
    Walk(env, cfg, Enter(root), s1, s2, s3);
    assert CObserve()(Run(CStepper(env, cfg), Enter(root), 3)) == Obs(s3.trace, true);
  }

  /** Two runs that end differently. */
  lemma Differ(env: Env, cfg: Cfg, root: int, o: Obs<Event>, cfg2: Cfg, root2: int, o2: Obs<Event>)
    requires Ends(env, cfg, root, o) && Ends(env, cfg2, root2, o2) && o != o2
    ensures CRuns(env, cfg2, root2) != CRuns(env, cfg, root)
  {
    var n: nat :| CObserve()(Run(CStepper(env, cfg), Enter(root), n)) == o;
    var n2: nat :| CObserve()(Run(CStepper(env, cfg2), Enter(root2), n2)) == o2;
    assert o.Leq(CObserve()(Run(CStepper(env, cfg), Enter(root), n)));
    assert o in CRuns(env, cfg, root);
    if o in CRuns(env, cfg2, root2) {
      CfgLawful(env, cfg2);
      EndsOnce(CStepper(env, cfg2), CObserve(), Enter(root2), n2, o);
    }
  }

  /** The code that Merge leaves. */
  lemma MergeCode(cfg: Cfg, f: nat, y: nat)
    requires f < |cfg| && y < |cfg| && f != y
    ensures var r := Merge(cfg, f, y);
      && SameCode(r[f], cfg[y].(ops := cfg[f].ops + cfg[y].ops)) && SameCode(r[y], cfg[y].(ops := []))
      && r[f].access == cfg[f].access && !r[y].access
      && forall z: nat {:trigger r[z]} :: z < |cfg| && z != f && z != y ==>
            SameCode(r[z], cfg[z]) && r[z].access == cfg[z].access
  {
    var to := cfg[y];
    var joined := cfg[f].(ops := cfg[f].ops + to.ops, followTo := to.followTo, op1To := to.op1To,
                          op2To := to.op2To, extTo := to.extTo);
    var c0 := cfg[y := to.(ops := [], access := false, sources := [])][f := joined];
    var c1 := ReplaceIn(c0, to.op1To, y, f);
    var c2 := ReplaceIn(c1, to.op2To, y, f);
    var c3 := ReplaceIn(c2, to.extTo, y, f);
    ReplaceInKeeps(c0, to.op1To, y, f);
    ReplaceInKeeps(c1, to.op2To, y, f);
    ReplaceInKeeps(c2, to.extTo, y, f);
    ReplaceInKeeps(c3, to.followTo, y, f);
    forall z: nat | z < |cfg|
      ensures SameCode(Merge(cfg, f, y)[z], c0[z]) && Merge(cfg, f, y)[z].access == c0[z].access
    {
      assert SameCode(c1[z], c0[z]) && SameCode(c2[z], c1[z]) && SameCode(c3[z], c2[z]);
    }
  }

  /** The code that a rewriting leaves if del_source joins y to f. */
  lemma JoinedCode(cfg: Cfg, b: nat, y: nat, f: nat, blk: Block, add: Block)
    requires b < |cfg| && y < |cfg| && b in cfg[y].sources && FateOf(cfg, b, y) == Merged(f) && f != b && y != b
    ensures var r := Redirect(cfg, b, y, blk, add);
      && f < |cfg| && SameCode(r[b], blk) && r[y].ops == [] && r[y].followTo == cfg[y].followTo
      && SameCode(r[f], cfg[y].(ops := cfg[f].ops + cfg[y].ops))
      && forall z: nat {:trigger r[z]} :: z < |cfg| && z != b && z != f && z != y ==> SameCode(r[z], cfg[z])
  {
    DelSourceCases(cfg, b, y);
    MergeCode(Unlinked(cfg, b, y), f, y);
    AddSourcesFacts(SetCode(DelSource(cfg, b, y), b, blk), b, add);
  }

  // ---- a branch back to itself: A; do { } while ($a);

  const SELF_LOOP: Cfg := [
    Blk([Exec(1, Unused, Unused, Unused, NoResult)], -1, -1, -1, 1, []),
    Blk([CondJmp(true, Cv(0), 1)], -1, 1, -1, 2, [1, 0]),
    Blk([Return(Unused)], -1, -1, -1, -1, [1])]

  lemma SelfLoopSources()
    ensures SourcesExact(SELF_LOOP)
  {
  }

  lemma SelfLoopWf()
    ensures Wf(SELF_LOOP, 0)
  {
    SelfLoopSources();
  }

  /** The loop is joined to the block before it, which jumps to a block that is gone. */
  lemma SelfLoopCode(r: Cfg)
    requires r == Threaded(SELF_LOOP, 1)
    ensures |r| == 3 && r[1].ops == [] && r[1].followTo == 2 && SameCode(r[2], SELF_LOOP[2])
    ensures SameCode(r[0], SELF_LOOP[1].(ops := SELF_LOOP[0].ops + SELF_LOOP[1].ops))
  {
    var cfg := SELF_LOOP;
    assert Without([1, 0], 1) == [0];
    assert Head(cfg[1]) == cfg[1].ops[0] && Past(cfg, 1) == 1;
    var w := ThreadRewriting(cfg, 1);
    assert w == Lead(1, cfg[1], Led(-1, 1, -1, -1));
    assert cfg[1 := cfg[1].(ops := w.blk.ops)] == cfg;
    DelSourceCases(cfg, 1, 1);
    MergeCode(Unlinked(cfg, 1, 1), 0, 1);
    AddSourcesFacts(SetLinks(DelSource(cfg, 1, 1), 1, w.blk), 1, w.add);
  }

  lemma SelfLoopTurn(env: Env, s: CState)
    requires env == Calm(k => 1) && s == CState(1, 0, map[], [Ran(1, NoArg, NoArg, NoArg)], false)
    ensures CStep(env, SELF_LOOP, Enter(0)) == s && CStep(env, SELF_LOOP, s) == s
  {
  }

  /** From then on the run stays at state s. */
  lemma {:induction false} StaysAt(f: CState -> CState, s0: CState, s: CState, n: nat)
    requires f(s0) == s && f(s) == s && n >= 1
    ensures Run(f, s0, n) == s
  {
    if n > 1 {
      StaysAt(f, s0, s, n - 1);
    } else {
      assert Run(f, s0, 1) == f(Run(f, s0, 0));
    }
  }

  lemma SelfLoopRunsOn(env: Env, n: nat)
    requires env == Calm(k => 1) && n >= 1
    ensures Run(CStepper(env, SELF_LOOP), Enter(0), n) == CState(1, 0, map[], [Ran(1, NoArg, NoArg, NoArg)], false)
  {
    var s := CState(1, 0, map[], [Ran(1, NoArg, NoArg, NoArg)], false);
    SelfLoopTurn(env, s);
    StaysAt(CStepper(env, SELF_LOOP), Enter(0), s, n);
  }

  lemma SelfLoopEnds(env: Env, r: Cfg)
    requires env == Calm(k => 1) && |r| == 3 && r[1].ops == [] && r[1].followTo == 2 && SameCode(r[2], SELF_LOOP[2])
    requires SameCode(r[0], SELF_LOOP[1].(ops := SELF_LOOP[0].ops + SELF_LOOP[1].ops))
    ensures Obs([Ran(1, NoArg, NoArg, NoArg), Returned(NoArg)], true) in CRuns(env, r, 0)
  {
    var f, t := CStepper(env, r), [Ran(1, NoArg, NoArg, NoArg)];
    var s1, s2, s3, s4 := CState(0, 1, map[], t, false), CState(1, 0, map[], t, false), CState(2, 0, map[], t, false),
      CState(-1, 0, map[], t + [Returned(NoArg)], true);
    assert CStep(env, r, Enter(0)) == s1 && CStep(env, r, s1) == s2 && CStep(env, r, s2) == s3
      && CStep(env, r, s3) == s4;
    Walk(env, r, Enter(0), s1, s2, s3);
    assert Run(f, Enter(0), 4) == f(Run(f, Enter(0), 3)) == s4;
    var o := Obs([Ran(1, NoArg, NoArg, NoArg), Returned(NoArg)], true);
    assert o.Leq(CObserve()(Run(f, Enter(0), 4)));
  }

  /** A loop that never ends, ends. */
  lemma SelfLoopIsLost(env: Env)
    requires env == Calm(k => 1)
    ensures Wf(SELF_LOOP, 0) && CRuns(env, Threaded(SELF_LOOP, 1), 0) != CRuns(env, SELF_LOOP, 0)
  {
    SelfLoopWf();
    var r := Threaded(SELF_LOOP, 1);
    SelfLoopCode(r);
    SelfLoopEnds(env, r);
    var o := Obs([Ran(1, NoArg, NoArg, NoArg), Returned(NoArg)], true);
    if o in CRuns(env, SELF_LOOP, 0) {
      var n: nat :| o.Leq(CObserve()(Run(CStepper(env, SELF_LOOP), Enter(0), n)));
      if n >= 1 {
        SelfLoopRunsOn(env, n);
      }
    }
  }

  // ---- both ways of a branch lead to the same JMP

  const SAME_WAYS: Cfg := [
    Blk([CondJmp(false, Cv(0), 2)], -1, 2, -1, 2, []),
    Blk([Nop], -1, -1, -1, 2, []),
    Blk([Jmp(3)], 3, -1, -1, -1, [0, 1]),
    Blk([Return(Unused)], -1, -1, -1, -1, [2])]

  lemma SameWaysSources()
    ensures SourcesExact(SAME_WAYS)
  {
  }

  lemma SameWaysWf()
    ensures Wf(SAME_WAYS, 0)
  {
    SameWaysSources();
  }

  /** The jump is led ahead; the block it led to loses the source, and is joined to another one, though the branch still
      falls to it. */
  lemma SameWaysLost(env: Env)
    requires env == Calm(k => 1)
    ensures Wf(SAME_WAYS, 0) && CRuns(env, Threaded(SAME_WAYS, 0), 0) != CRuns(env, SAME_WAYS, 0)
  {
    SameWaysWf();
    var cfg, r := SAME_WAYS, Threaded(SAME_WAYS, 0);
    assert Without([0, 1], 0) == [1];
    assert Head(cfg[2]) == cfg[2].ops[0] && Past(cfg, 2) == 2;
    assert ThreadRewriting(cfg, 0) == Lead(2, cfg[0].(op2To := 3), Led(-1, 3, -1, -1));
    JoinedCode(cfg, 0, 2, 1, cfg[0].(op2To := 3), Led(-1, 3, -1, -1));
    EndsIn3(env, cfg, 0, Enter(2), Enter(3), CState(-1, 0, map[], [Returned(NoArg)], true));
    EndsIn3(env, r, 0, Enter(2), Enter(-1), CState(-1, 0, map[], [OffEnd], true));
    Differ(env, cfg, 0, Obs([Returned(NoArg)], true), r, 0, Obs([OffEnd], true));
  }

  // ---- both ways of a branch on a constant lead to the same block

  const SAME_CONST: Cfg := [
    Blk([CondJmp(true, Const(1), 2)], -1, 2, -1, 2, []),
    Blk([Nop], -1, -1, -1, 2, []),
    Blk([Return(Unused)], -1, -1, -1, -1, [0, 1])]

  lemma SameConstSources()
    ensures SourcesExact(SAME_CONST)
  {
  }

  lemma SameConstWf()
    ensures Wf(SAME_CONST, 0)
  {
    SameConstSources();
  }

  lemma SameConstCode(r: Cfg)
    requires r == JmpOptimize(SAME_CONST, 0)
    ensures |r| == 3 && r[0].ops == [Jmp(2)] && r[0].op1To == 2 && r[2].ops == [] && r[2].followTo == -1
  {
    var cfg := SAME_CONST;
    assert Without([0, 1], 0) == [1];
    var blk := cfg[0].(ops := [Jmp(2)], op1To := 2, op2To := -1, followTo := -1);
    assert ConstRewriting(cfg, 0) == Lead(2, blk, NOWHERE);
    JoinedCode(cfg, 0, 2, 1, blk, NOWHERE);
  }

  lemma SameConstLost(env: Env)
    ensures Wf(SAME_CONST, 0) && CRuns(env, JmpOptimize(SAME_CONST, 0), 0) != CRuns(env, SAME_CONST, 0)
  {
    SameConstWf();
    var r := JmpOptimize(SAME_CONST, 0);
    SameConstCode(r);
    LostReturn(env, SAME_CONST, r);
  }

  lemma LostReturn(env: Env, cfg: Cfg, r: Cfg)
    requires |cfg| == |r| == 3 && cfg[0].ops != [] && cfg[2] == Blk([Return(Unused)], -1, -1, -1, -1, [0, 1])
    requires CStep(env, cfg, Enter(0)) == Enter(2) == CStep(env, r, Enter(0))
    requires r[2].ops == [] && r[2].followTo == -1
    ensures CRuns(env, r, 0) != CRuns(env, cfg, 0)
  {
    var s := CState(-1, 0, map[], [Returned(NoArg)], true);
    EndsIn3(env, cfg, 0, Enter(2), s, s);
    EndsIn3(env, r, 0, Enter(2), Enter(-1), CState(-1, 0, map[], [OffEnd], true));
    Differ(env, cfg, 0, Obs([Returned(NoArg)], true), r, 0, Obs([OffEnd], true));
  }

  // ---- and the same for JMPZNZ

  const SAME_ZNZ: Cfg := [
    Blk([JmpZnz(Const(1), 2, 2)], -1, 2, 2, -1, []),
    Blk([Nop], -1, -1, -1, 2, []),
    Blk([Return(Unused)], -1, -1, -1, -1, [0, 1])]

  lemma SameZnzSources()
    ensures SourcesExact(SAME_ZNZ)
  {
  }

  lemma SameZnzWf()
    ensures Wf(SAME_ZNZ, 0)
  {
    SameZnzSources();
  }

  lemma SameZnzCode(r: Cfg)
    requires r == JmpOptimize(SAME_ZNZ, 0)
    ensures |r| == 3 && r[0].ops == [Jmp(2)] && r[0].op1To == 2 && r[2].ops == [] && r[2].followTo == -1
  {
    var cfg := SAME_ZNZ;
    assert Without([0, 1], 0) == [1];
    var blk := cfg[0].(ops := [Jmp(2)], op1To := 2, op2To := -1, extTo := -1);
    assert SplitRewriting(cfg, 0) == Lead(2, blk, NOWHERE);
    JoinedCode(cfg, 0, 2, 1, blk, NOWHERE);
    assert Last(Redirect(cfg, 0, 2, blk, NOWHERE)[0]) == Jmp(2);
  }

  lemma SameZnzLost(env: Env)
    ensures Wf(SAME_ZNZ, 0) && CRuns(env, JmpOptimize(SAME_ZNZ, 0), 0) != CRuns(env, SAME_ZNZ, 0)
  {
    SameZnzWf();
    var r := JmpOptimize(SAME_ZNZ, 0);
    SameZnzCode(r);
    LostReturn(env, SAME_ZNZ, r);
  }

  // ---- for whole runs, order is more than is needed

  /** The same, behind a RETURN. */
  const UNSEEN: Cfg := [
    Blk([Return(Unused)], -1, -1, -1, -1, []),
    Blk([JmpZnz(Const(1), 3, 3)], -1, 3, 3, -1, []),
    Blk([Nop], -1, -1, -1, 3, []),
    Blk([Return(Unused)], -1, -1, -1, -1, [1, 2])]

  lemma UnseenSources()
    ensures SourcesExact(UNSEEN)
  {
  }

  lemma UnseenWf()
    ensures Wf(UNSEEN, 0)
  {
    UnseenSources();
  }

  lemma ReturnsAtOnce(env: Env, cfg: Cfg, o: Obs<Event>)
    requires |cfg| > 0 && cfg[0].ops == [Return(Unused)]
    ensures o in CRuns(env, cfg, 0) <==> o.Leq(Obs([], false)) || o.Leq(Obs([Returned(NoArg)], true))
  {
    CfgLawful(env, cfg);
    DoneAtOnce(CStepper(env, cfg), CObserve(), Enter(0), o);
    assert [] + [Returned(NoArg)] == [Returned(NoArg)];
  }

  lemma UnseenCode()
    ensures !Steady(UNSEEN, 0, 1) && JmpOptimize(UNSEEN, 1)[0].ops == [Return(Unused)]
  {
    var cfg := UNSEEN;
    assert Without([1, 2], 1) == [2];
    var blk := cfg[1].(ops := [Jmp(3)], op1To := 3, op2To := -1, extTo := -1);
    assert SplitRewriting(cfg, 1) == Lead(3, blk, NOWHERE);
    JoinedCode(cfg, 1, 3, 2, blk, NOWHERE);
    assert Last(Redirect(cfg, 1, 3, blk, NOWHERE)[1]) == Jmp(3);
  }

  /** A call that is not safe changes no run if control never comes to the blocks it spoils. */
  lemma UnsafeButUnseen(env: Env)
    ensures Wf(UNSEEN, 0) && !Steady(UNSEEN, 0, 1)
    ensures CRuns(env, JmpOptimize(UNSEEN, 1), 0) == CRuns(env, UNSEEN, 0)
  {
    UnseenWf();
    UnseenCode();
    var r := JmpOptimize(UNSEEN, 1);
    forall o: Obs<Event> ensures o in CRuns(env, r, 0) <==> o in CRuns(env, UNSEEN, 0) {
      ReturnsAtOnce(env, r, o);
      ReturnsAtOnce(env, UNSEEN, o);
    }
  }

  // ---- the entry is a jump target: L: if ($a) { f(); goto L; }

  const TAKEN_ENTRY: Cfg := [
    Blk([JmpZnz(Cv(0), 2, 1)], -1, 2, 1, -1, [1]),
    Blk([Exec(1, Unused, Unused, Unused, NoResult), Jmp(0)], 0, -1, -1, -1, [0]),
    Blk([Return(Unused)], -1, -1, -1, -1, [0])]

  lemma TakenEntrySources()
    ensures SourcesExact(TAKEN_ENTRY)
  {
  }

  lemma TakenEntryWf()
    ensures Wf(TAKEN_ENTRY, 0)
  {
    TakenEntrySources();
  }

  lemma TakenEntryCode(r: Cfg)
    requires r == JmpOptimize(TAKEN_ENTRY, 1)
    ensures |r| == 3 && !r[0].access && r[1].access && SameCode(r[2], TAKEN_ENTRY[2])
    ensures SameCode(r[1], Blk([Exec(1, Unused, Unused, Unused, NoResult), JmpZnz(Cv(0), 2, 1)], -1, 2, 1, -1, []))
  {
    var cfg := TAKEN_ENTRY;
    assert Without([1], 1) == [];
    NextLiveIs(cfg, 1);
    var w := JumpRewriting(cfg, 1);
    assert w.Lead? && w.y == 0;
    assert !DelSource(cfg, 1, 0)[0].access;
    AddSourcesFacts(SetCode(DelSource(cfg, 1, 0), 1, w.blk), 1, w.add);
  }

  lemma TakenEntryEnds(env: Env, r: Cfg)
    requires env == Calm(k => 0) && |r| == 3 && SameCode(r[2], TAKEN_ENTRY[2])
    requires SameCode(r[1], Blk([Exec(1, Unused, Unused, Unused, NoResult), JmpZnz(Cv(0), 2, 1)], -1, 2, 1, -1, []))
    ensures CRuns(env, r, 1) != CRuns(env, TAKEN_ENTRY, 0)
  {
    var t := [Ran(1, NoArg, NoArg, NoArg)];
    var s, u := CState(-1, 0, map[], [Returned(NoArg)], true), CState(-1, 0, map[], t + [Returned(NoArg)], true);
    EndsIn3(env, TAKEN_ENTRY, 0, Enter(2), s, s);
    EndsIn3(env, r, 1, CState(1, 1, map[], t, false), CState(2, 0, map[], t, false), u);
    Differ(env, TAKEN_ENTRY, 0, Obs([Returned(NoArg)], true), r, 1, Obs(u.trace, true));
  }

  /** The jump back takes over the test at the entry; the entry has no sources left and counts as unused; the code now
      begins in the middle of the loop. */
  lemma EntryIsTakenAway(env: Env)
    requires env == Calm(k => 0)
    ensures Wf(TAKEN_ENTRY, 0) && !Steady(TAKEN_ENTRY, 0, 1) && FateOf(TAKEN_ENTRY, 1, 0) == Dropped
    ensures var r := JmpOptimize(TAKEN_ENTRY, 1); CRuns(env, r, NextLive(r, -1)) != CRuns(env, TAKEN_ENTRY, 0)
  {
    TakenEntryWf();
    var cfg, r := TAKEN_ENTRY, JmpOptimize(TAKEN_ENTRY, 1);
    NextLiveIs(cfg, 1);
    assert Without([1], 1) == [];
    TakenEntryCode(r);
    assert NextLive(r, 0) == 1;
    TakenEntryEnds(env, r);
  }

  // ---- two variables whose numbers differ by 256

  const ONE_BYTE: Cfg := [
    Blk([JmpZnz(Cv(256), 2, 3)], -1, 2, 3, -1, []),
    Blk([Return(Const(0))], -1, -1, -1, -1, [2]),
    Blk([CondJmp(false, Cv(0), 1)], -1, 1, -1, 3, [0]),
    Blk([Return(Const(1))], -1, -1, -1, -1, [0, 2])]

  lemma OneByteSources()
    ensures SourcesExact(ONE_BYTE)
  {
  }

  lemma OneByteWf()
    ensures Wf(ONE_BYTE, 0)
  {
    OneByteSources();
  }

  lemma OneByteCode(r: Cfg)
    requires r == ZeroNext(ONE_BYTE, 0)
    ensures |r| == 4 && SameCode(r[0], ONE_BYTE[0].(op2To := 1)) && SameCode(r[1], ONE_BYTE[1])
  {
    var cfg := ONE_BYTE;
    var blk := cfg[0].(op2To := 1);
    assert Head(cfg[2]) == cfg[2].ops[0] && Past(cfg, 2) == 2;
    assert ZeroRewriting(cfg, 0) == Lead(2, blk, Led(-1, 1, -1, -1));
    assert Without([0], 0) == [];
    AddSourcesFacts(SetCode(DelSource(cfg, 0, 2), 0, blk), 0, Led(-1, 1, -1, -1));
  }

  lemma OneByteEnds(env: Env, r: Cfg)
    requires env == Calm(k => if k == 0 then 1 else 0)
    requires |r| == 4 && SameCode(r[0], ONE_BYTE[0].(op2To := 1)) && SameCode(r[1], ONE_BYTE[1])
    ensures CRuns(env, r, 0) != CRuns(env, ONE_BYTE, 0)
  {
    var s := CState(-1, 0, map[], [Returned(Val(0))], true);
    EndsIn3(env, ONE_BYTE, 0, Enter(2), Enter(3), CState(-1, 0, map[], [Returned(Val(1))], true));
    EndsIn3(env, r, 0, Enter(1), s, s);
    Differ(env, ONE_BYTE, 0, Obs([Returned(Val(1))], true), r, 0, Obs([Returned(Val(0))], true));
  }

  /** The test of variable 0, which is set, is taken for a second test of variable 256, which is not. */
  lemma ByteIsNotEnough(env: Env)
    requires env == Calm(k => if k == 0 then 1 else 0)
    ensures Wf(ONE_BYTE, 0) && Steady(ONE_BYTE, 0, 0) && !NoMistake(ONE_BYTE, 0)
    ensures CRuns(env, ZeroNext(ONE_BYTE, 0), 0) != CRuns(env, ONE_BYTE, 0)
  {
    OneByteWf();
    var cfg, r := ONE_BYTE, ZeroNext(ONE_BYTE, 0);
    OneByteCode(r);
    NextLiveIs(cfg, 0);
    assert Head(cfg[2]) == cfg[2].ops[0] && Past(cfg, 2) == 2;
    OneByteEnds(env, r);
  }
}
