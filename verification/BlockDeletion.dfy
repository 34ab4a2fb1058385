/** delete_code_block: a block that only passes control on is taken out of the graph, and every way into
    it leads to its successor instead. */
module BlockDeletion {
  import opened Simulation
  import opened Machine
  import opened Cfgs
  import opened CfgEdit
  import opened Redirects

  function Aim(w: int, b: nat, to: int): int { if w == b then to else w }

  /** The ways out of blk, with those to b leading to block to. */
  function Moved(blk: Block, b: nat, to: int): Block {
    blk.(op1To := Aim(blk.op1To, b, to), op2To := Aim(blk.op2To, b, to), extTo := Aim(blk.extTo, b, to),
         followTo := Aim(blk.followTo, b, to))
  }

  /** One turn of the loop over the sources of b. */
  function MoveOne(cfg: Cfg, s: nat, b: nat, to: int): (r: Cfg)
    ensures |r| == |cfg|
  {
    if s < |cfg| && Edge(cfg[s], b) then AddSource(cfg[s := Moved(cfg[s], b, to)], s, to) else cfg
  }

  function MoveSources(cfg: Cfg, l: seq<nat>, b: nat, to: int): (r: Cfg)
    ensures |r| == |cfg|
  {
    if l == [] then cfg else MoveOne(MoveSources(cfg, l[..|l| - 1], b, to), l[|l| - 1], b, to)
  }

  /** delete_code_block for a block with follow_to == to. */
  function DeleteBlock(cfg: Cfg, b: nat, to: int): (r: Cfg)
    requires b < |cfg|
    ensures |r| == |cfg|
  {
    if cfg[b].protected then cfg
    else
      var r := MoveSources(cfg, cfg[b].sources, b, to);
      r[b := r[b].(access := false)]
  }

  // ---- what the loop leaves behind

  ghost predicate MovedBy(cfg: Cfg, l: seq<nat>, b: nat, to: int, r: Cfg) {
    && |r| == |cfg|
    && (NoDups(cfg) ==> NoDups(r))
    && (forall x: nat {:trigger r[x]} :: x < |cfg| ==>
          r[x].access == cfg[x].access && SameCode(r[x], if x in l then Moved(cfg[x], b, to) else cfg[x]))
    && (forall z: nat, s: nat {:trigger s in r[z].sources} :: z < |cfg| ==>
          (s in r[z].sources <==> s in cfg[z].sources || (z == to && s in l && s < |cfg| && Edge(cfg[s], b))))
  }

  lemma MoveTwice(blk: Block, b: nat, to: int)
    requires b != to
    ensures Moved(Moved(blk, b, to), b, to) == Moved(blk, b, to) && !Edge(Moved(blk, b, to), b)
    ensures !Edge(blk, b) ==> Moved(blk, b, to) == blk
  {
  }

  lemma MoveOneMore(cfg: Cfg, l: seq<nat>, b: nat, to: int, r: Cfg, s: nat)
    requires b != to && MovedBy(cfg, l, b, to, r)
    ensures MovedBy(cfg, l + [s], b, to, MoveOne(r, s, b, to))
  {
    if s < |cfg| {
      MoveTwice(cfg[s], b, to);
      assert SameCode(r[s], if s in l then Moved(cfg[s], b, to) else cfg[s]);
      if Edge(r[s], b) {
        assert s !in l && Edge(cfg[s], b);
        AddSourceFacts(r[s := Moved(r[s], b, to)], s, to);
      } else {
        assert s in l || !Edge(cfg[s], b);
      }
    }
  }

  lemma {:induction false} MoveSourcesFacts(cfg: Cfg, l: seq<nat>, b: nat, to: int)
    requires b != to
    ensures MovedBy(cfg, l, b, to, MoveSources(cfg, l, b, to))
  {
    if l != [] {
      var k := |l| - 1;
      MoveSourcesFacts(cfg, l[..k], b, to);
      MoveOneMore(cfg, l[..k], b, to, MoveSources(cfg, l[..k], b, to), l[k]);
      assert l == l[..k] + [l[k]];
    }
  }

  // ---- deleting a block that only passes control on

  /** Block b does nothing but go on to the block that comes next. */
  ghost predicate Passes(cfg: Cfg, b: nat, to: nat) {
    && Live(cfg, b) && |cfg[b].ops| == 1 && Falls(cfg, b, to)
    && ((cfg[b].ops[0].Jmp? && cfg[b].op1To == to) || (cfg[b].ops[0].Nop? && cfg[b].followTo == to))
  }

  /** Only the code of block b differs. */
  ghost predicate SameButCode(cfg: Cfg, cfg1: Cfg, b: nat) {
    && b < |cfg| == |cfg1| && cfg1 == cfg[b := cfg1[b]] && cfg1[b].sources == cfg[b].sources
    && cfg1[b].access == cfg[b].access
  }

  ghost predicate Deletes(cfg: Cfg, root: int, b: nat, to: nat, cfg1: Cfg) {
    Wf(cfg, root) && Passes(cfg, b, to) && SameButCode(cfg, cfg1, b) && !cfg1[b].protected
  }

  function RootAfter(root: int, b: nat, to: nat): int { if root == b then to else root }

  lemma DeleteFacts(cfg: Cfg, root: int, b: nat, to: nat, cfg1: Cfg)
    requires Deletes(cfg, root, b, to, cfg1)
    ensures var r := DeleteBlock(cfg1, b, to);
      && |r| == |cfg| && NoDups(r)
      && (forall x {:trigger Live(r, x)} :: Live(r, x) <==> Live(cfg, x) && x != b)
      && (forall x {:trigger Live(r, x)} :: Live(r, x) ==> SameCode(r[x], Moved(cfg[x], b, to)))
      && (forall z: nat, s: nat {:trigger s in r[z].sources} :: z < |cfg| ==>
            (s in r[z].sources <==>
              s in cfg[z].sources || (z == to && s in cfg[b].sources && s < |cfg| && Edge(cfg1[s], b))))
  {
    NoDupsOfWf(cfg, root);
    var l := cfg1[b].sources;
    MoveSourcesFacts(cfg1, l, b, to);
    var m := MoveSources(cfg1, l, b, to);
    var r := DeleteBlock(cfg1, b, to);
    assert r == m[b := m[b].(access := false)];
    forall x | Live(cfg, x) && x != b ensures SameCode(r[x], Moved(cfg[x], b, to)) {
      var y: nat := x;
      assert m[y].access == cfg[y].access;
      if y !in l {
        assert !Edge(cfg[x], b);
        MoveTwice(cfg[x], b, to);
      }
    }
  }

  lemma DeleteSources(cfg: Cfg, root: int, b: nat, to: nat, cfg1: Cfg)
    requires Deletes(cfg, root, b, to, cfg1)
    ensures SourcesExact(DeleteBlock(cfg1, b, to))
  {
    var r := DeleteBlock(cfg1, b, to);
    DeleteFacts(cfg, root, b, to, cfg1);
    assert Shaped(cfg[b]) && !Edge(cfg[b], b);
    forall z | Live(r, z) ensures NoDup(r[z].sources) {
      var w: nat := z;
      assert r[w].access;
    }
    forall x, z | Live(r, x) && Edge(r[x], z) ensures Live(r, z) && x in r[z].sources {
      assert Live(cfg, x);
      if Edge(cfg[x], z) && z != b {
        assert x in cfg[z].sources;
      } else {
        assert z == to && Edge(cfg[x], b) && x in cfg[b].sources && cfg1[x] == cfg[x];
      }
    }
    forall x, z | Live(r, x) && Live(r, z) && x in r[z].sources ensures Edge(r[x], z) {
      assert Live(cfg, x) && Live(cfg, z) && cfg1[x] == cfg[x];
      assert x in cfg[z].sources ==> Edge(cfg[x], z);
    }
  }

  lemma DeleteFalls(cfg: Cfg, root: int, b: nat, to: nat, cfg1: Cfg, x: int)
    requires Deletes(cfg, root, b, to, cfg1) && Live(DeleteBlock(cfg1, b, to), x)
    requires DeleteBlock(cfg1, b, to)[x].followTo >= 0
    ensures Falls(DeleteBlock(cfg1, b, to), x, DeleteBlock(cfg1, b, to)[x].followTo)
  {
    var r := DeleteBlock(cfg1, b, to);
    DeleteFacts(cfg, root, b, to, cfg1);
    assert Live(cfg, x) && Falls(cfg, x, cfg[x].followTo);
    forall j | x < j < r[x].followTo && Live(r, j) ensures NopOnly(r[j]) {
      assert Live(cfg, j) && SameCode(r[j], Moved(cfg[j], b, to));
      assert NopOnly(cfg[j]);
    }
  }

  lemma MovedShaped(blk: Block, b: nat, to: nat)
    requires Shaped(blk)
    ensures Shaped(Moved(blk, b, to))
  {
  }

  lemma DeleteWf(cfg: Cfg, root: int, b: nat, to: nat, cfg1: Cfg)
    requires Deletes(cfg, root, b, to, cfg1)
    ensures Wf(DeleteBlock(cfg1, b, to), RootAfter(root, b, to))
  {
    var r, root2 := DeleteBlock(cfg1, b, to), RootAfter(root, b, to);
    DeleteFacts(cfg, root, b, to, cfg1);
    DeleteSources(cfg, root, b, to, cfg1);
    assert Shaped(cfg[b]) && Edge(cfg[b], to) && b in cfg[to].sources;
    forall x | Live(r, x) ensures Shaped(r[x]) {
      assert Live(cfg, x) && SameCode(r[x], Moved(cfg[x], b, to));
      MovedShaped(cfg[x], b, to);
    }
    forall x | Live(r, x) && r[x].followTo >= 0 ensures Falls(r, x, r[x].followTo) {
      DeleteFalls(cfg, root, b, to, cfg1, x);
    }
    assert Live(r, root2);
    forall j | j < root2 && Live(r, j) ensures NopOnly(r[j]) {
      assert Live(cfg, j) && SameCode(r[j], Moved(cfg[j], b, to)) && NopOnly(cfg[j]);
    }
  }

  // ---- and runs

  ghost function SameRel(r: Cfg): (CState, CState) -> bool {
    (s, t) => Placed(r, s) && t == s
  }

  lemma PassingStep(env: Env, cfg: Cfg, b: nat, to: nat, s: CState)
    requires Passes(cfg, b, to) && Shaped(cfg[b]) && !s.done && s.b == b && s.off == 0
    ensures CStep(env, cfg, s) == s.(b := to)
  {
  }

  lemma DeleteStep(env: Env, cfg: Cfg, root: int, b: nat, to: nat, cfg1: Cfg, s: CState)
    requires Deletes(cfg, root, b, to, cfg1) && Placed(DeleteBlock(cfg1, b, to), s)
    ensures Leads(env, cfg, s, CStep(env, DeleteBlock(cfg1, b, to), s))
  {
    var r := DeleteBlock(cfg1, b, to);
    DeleteFacts(cfg, root, b, to, cfg1);
    LeadsStep(env, cfg, s);
    if !s.done {
      assert Live(cfg, s.b) && Shaped(cfg[s.b]) && Shaped(cfg[b]) && SameCode(r[s.b], Moved(cfg[s.b], b, to));
      WayIsEdge(env, cfg[s.b], s);
      var u := CStep(env, cfg, s);
      MovedStep(env, cfg[s.b], b, to, s);
      assert CStep(env, r, s) == BlockStep(env, Moved(cfg[s.b], b, to), s);
      if !u.done && u.b == b && s.b != b {
        PassingStep(env, cfg, b, to, u);
        LeadsStep(env, cfg, u);
        LeadsTrans(env, cfg, s, u, CStep(env, cfg, u));
      }
    }
  }

  lemma MovedStep(env: Env, blk: Block, b: nat, to: nat, s: CState)
    requires Shaped(blk) && s.b != b && s.off < |blk.ops| && !s.done
    ensures var u := BlockStep(env, blk, s);
      BlockStep(env, Moved(blk, b, to), s) == if !u.done && u.b == b then u.(b := to) else u
  {
  }

  lemma DeleteSimulates(env: Env, cfg: Cfg, root: int, b: nat, to: nat, cfg1: Cfg)
    requires Deletes(cfg, root, b, to, cfg1)
    ensures MacroStep(CStepper(env, DeleteBlock(cfg1, b, to)), CObserve(), CStepper(env, cfg), CObserve(),
      SameRel(DeleteBlock(cfg1, b, to)))
  {
    var r := DeleteBlock(cfg1, b, to);
    var R := SameRel(r);
    DeleteWf(cfg, root, b, to, cfg1);
    forall s: CState, t: CState | R(s, t)
      ensures Reaches(CStepper(env, r)(s), CStepper(env, cfg), t, R)
    {
      StepPlaced(env, r, RootAfter(root, b, to), s);
      DeleteStep(env, cfg, root, b, to, cfg1, s);
      ReachesBy(env, cfg, t, CStep(env, r, s), CStep(env, r, s), R);
    }
  }

  /** Entering b or its successor shows the same. */
  lemma PassingRuns(env: Env, cfg: Cfg, root: int, b: nat, to: nat)
    requires Wf(cfg, root) && Passes(cfg, b, to)
    ensures CRuns(env, cfg, to) == CRuns(env, cfg, b)
  {
    assert Shaped(cfg[b]);
    CfgLawful(env, cfg);
    PassingStep(env, cfg, b, to, Enter(b));
    StepBehaviour(CStepper(env, cfg), CObserve(), Enter(b));
  }

  lemma DeleteSize(cfg: Cfg, root: int, b: nat, to: nat, cfg1: Cfg)
    requires Deletes(cfg, root, b, to, cfg1)
    ensures Size(DeleteBlock(cfg1, b, to), |cfg|) <= Size(cfg, |cfg|)
  {
    var r := DeleteBlock(cfg1, b, to);
    DeleteFacts(cfg, root, b, to, cfg1);
    forall x: nat | x < |cfg| ensures OpsOf(r, x) <= OpsOf(cfg, x) {
      assert Live(r, x) <==> r[x].access;
      assert Live(cfg, x) <==> cfg[x].access;
    }
    SizeLess(cfg, r, |cfg|);
  }

  /** Deleting the block keeps the invariant and every run; if it was the entry, its successor is now. */
  lemma DeletePreserves(env: Env, cfg: Cfg, root: int, b: nat, to: nat, cfg1: Cfg)
    requires Deletes(cfg, root, b, to, cfg1)
    ensures var r, root2 := DeleteBlock(cfg1, b, to), RootAfter(root, b, to);
      Keeps(env, cfg, root, r, root2)
  {
    var r, root2 := DeleteBlock(cfg1, b, to), RootAfter(root, b, to);
    DeleteWf(cfg, root, b, to, cfg1);
    DeleteSize(cfg, root, b, to, cfg1);
    DeleteSimulates(env, cfg, root, b, to, cfg1);
    CfgLawful(env, cfg);
    assert Live(r, root2) && Shaped(r[root2]);
    assert Placed(r, Enter(root2));
    assert SameRel(r)(Enter(root2), Enter(root2));
    MacroStepSound(CStepper(env, r), CObserve(), CStepper(env, cfg), CObserve(), SameRel(r), Enter(root2),
      Enter(root2));
    if root == b {
      PassingRuns(env, cfg, root, b, to);
    }
  }
}
