/** One rewrite of a block of the graph together with what del_source then does to the block it no
    longer leads to: nothing, dropping it, or joining it to the block that falls to it. */
module CfgEdit {
  import opened Simulation
  import opened Machine
  import opened Cfgs

  datatype Fate = Kept | Dropped | Merged(f: nat)

  predicate SameCode(a: Block, b: Block) {
    && a.ops == b.ops && a.op1To == b.op1To && a.op2To == b.op2To && a.extTo == b.extTo && a.followTo == b.followTo
  }

  /** The code of block x afterwards, if it is still accessible. */
  function Code2(cfg: Cfg, b: nat, y: nat, blk: Block, fate: Fate, x: nat): Block
    requires x < |cfg| && y < |cfg|
  {
    if x == b then blk
    else if fate.Merged? && x == fate.f then cfg[y].(ops := cfg[x].ops + cfg[y].ops)
    else cfg[x]
  }

  /** Why block y may go, once b no longer leads to it. */
  ghost predicate Justified(cfg: Cfg, b: nat, y: nat, fate: Fate)
    requires y < |cfg|
  {
    match fate
    case Kept => true
    case Dropped => y != b && forall s :: s in cfg[y].sources ==> s == b
    case Merged(f) =>
      && y != b && f != b && f != y && Live(cfg, f) && OnlyFallsTo(cfg[f], y)
      && forall s :: s in cfg[y].sources ==> s == b || s == f
  }

  ghost predicate Targeted(cfg: Cfg, y: int) {
    Live(cfg, y) && exists x {:trigger Live(cfg, x)} :: Live(cfg, x) && Edge(cfg[x], y)
  }

  /** Block b, which led to y, has become blk, and y has met its fate. */
  ghost predicate Edit(cfg: Cfg, b: nat, y: nat, blk: Block, fate: Fate, cfg2: Cfg) {
    && |cfg2| == |cfg| && b < |cfg| && y < |cfg|
    && Live(cfg, b) && !NopOnly(cfg[b]) && Edge(cfg[b], y)
    && Shaped(blk) && (blk.followTo >= 0 ==> Falls(cfg, b, blk.followTo))
    && (forall e {:trigger Edge(blk, e)} :: Edge(blk, e) ==> Targeted(cfg, e))
    && Justified(cfg, b, y, fate)
    && (forall x {:trigger Live(cfg2, x)} :: Live(cfg2, x) <==> Live(cfg, x) && (fate.Kept? || x != y))
    && (forall x {:trigger Live(cfg2, x)} :: Live(cfg2, x) ==> SameCode(cfg2[x], Code2(cfg, b, y, blk, fate, x)))
    && SourcesExact(cfg2)
  }

  /** The entry has not been taken away. */
  predicate SparesRoot(root: int, y: nat, fate: Fate) { y == root ==> fate.Kept? }

  // ---- the invariant is kept

  /** Past NOPs alone, control that falls through reaches block y in the end. */
  lemma {:induction false} FallChain(cfg: Cfg, root: int, g: int, y: int) returns (z: int)
    requires Wf(cfg, root) && Live(cfg, g) && NopOnly(cfg[g]) && g < y && Live(cfg, y) && !NopOnly(cfg[y])
    requires forall j {:trigger Live(cfg, j)} :: g <= j < y && Live(cfg, j) ==> NopOnly(cfg[j])
    ensures g <= z < y && Live(cfg, z) && NopOnly(cfg[z]) && cfg[z].followTo == y
    decreases y - g
  {
    assert Shaped(cfg[g]);
    assert cfg[g].ops[|cfg[g].ops| - 1].Nop?;
    var h := cfg[g].followTo;
    assert Falls(cfg, g, h);
    if h == y {
      z := g;
    } else {
      z := FallChain(cfg, root, h, y);
    }
  }

  /** A block joined to one that has only NOPs has only NOPs itself, if something follows in between. */
  lemma MergedNops(cfg: Cfg, root: int, b: nat, y: nat, f: nat, g: int)
    requires Wf(cfg, root) && y < |cfg| && Justified(cfg, b, y, Merged(f)) && Live(cfg, y)
    requires NopOnly(cfg[f]) && Live(cfg, b) && !NopOnly(cfg[b])
    requires f < g && Live(cfg, g) && g != y
    requires y < g ==> NopOnly(cfg[y])
    ensures NopOnly(cfg[y])
  {
    assert Falls(cfg, f, y);
    if g < y && !NopOnly(cfg[y]) {
      var z := FallChain(cfg, root, g, y);
      assert Edge(cfg[z], y);
    }
  }

  lemma EditShaped(cfg: Cfg, root: int, b: nat, y: nat, blk: Block, fate: Fate, cfg2: Cfg, x: int)
    requires Wf(cfg, root) && Edit(cfg, b, y, blk, fate, cfg2) && Live(cfg2, x)
    ensures Shaped(cfg2[x])
  {
    assert Live(cfg, x) && Shaped(cfg[x]);
    if fate.Merged? && x == fate.f {
      assert Shaped(cfg[y]);
      var ops := cfg2[x].ops;
      assert ops == cfg[x].ops + cfg[y].ops;
      assert Plain(cfg[x].ops[|cfg[x].ops| - 1]);
      forall i | 0 <= i < |ops| - 1 ensures Plain(ops[i]) {
        if i < |cfg[x].ops| {
          assert ops[i] == cfg[x].ops[i];
        } else {
          assert ops[i] == cfg[y].ops[i - |cfg[x].ops|];
        }
      }
    }
  }

  /** Seen from before the edit, a block that falls through afterwards is followed by its successor. */
  lemma FallsBefore(cfg: Cfg, root: int, b: nat, y: nat, blk: Block, fate: Fate, cfg2: Cfg, x: int)
    requires Wf(cfg, root) && Edit(cfg, b, y, blk, fate, cfg2) && Live(cfg2, x) && cfg2[x].followTo >= 0
    ensures var g := cfg2[x].followTo;
      && 0 <= x < g && Live(cfg2, g)
      && forall j {:trigger Live(cfg, j)} :: x < j < g && Live(cfg, j) && (fate.Kept? || j != y) ==> NopOnly(cfg[j])
  {
    var g := cfg2[x].followTo;
    assert Live(cfg, x);
    assert Edge(cfg2[x], g);
    if x == b {
      assert Falls(cfg, b, blk.followTo);
    } else if fate.Merged? && x == fate.f {
      assert Falls(cfg, x, y) && Falls(cfg, y, g);
    } else {
      assert Falls(cfg, x, g);
    }
  }

  lemma EditFalls(cfg: Cfg, root: int, b: nat, y: nat, blk: Block, fate: Fate, cfg2: Cfg, x: int)
    requires Wf(cfg, root) && Edit(cfg, b, y, blk, fate, cfg2) && Live(cfg2, x) && cfg2[x].followTo >= 0
    ensures Falls(cfg2, x, cfg2[x].followTo)
  {
    var g := cfg2[x].followTo;
    FallsBefore(cfg, root, b, y, blk, fate, cfg2, x);
    forall j | x < j < g && Live(cfg2, j) ensures NopOnly(cfg2[j]) {
      assert Live(cfg, j) && NopOnly(cfg[j]);
      if fate.Merged? && j == fate.f {
        assert Live(cfg, y) by { assert Falls(cfg, j, y); }
        MergedBetween(cfg, root, b, y, blk, fate, cfg2, x);
      }
    }
  }

  /** A merged block between x and its successor has only NOPs. */
  lemma MergedBetween(cfg: Cfg, root: int, b: nat, y: nat, blk: Block, fate: Fate, cfg2: Cfg, x: int)
    requires Wf(cfg, root) && Edit(cfg, b, y, blk, fate, cfg2) && Live(cfg2, x) && cfg2[x].followTo >= 0
    requires fate.Merged? && x < fate.f < cfg2[x].followTo && NopOnly(cfg[fate.f]) && Live(cfg, y)
    ensures NopOnly(cfg2[fate.f])
  {
    var f, g := fate.f, cfg2[x].followTo;
    FallsBefore(cfg, root, b, y, blk, fate, cfg2, x);
    assert Live(cfg2, f);
    assert Live(cfg, x) && x != y;
    if y < g {
      // y stood between x and g
      assert NopOnly(cfg[y]) by {
        if x == b {
          assert Falls(cfg, b, blk.followTo);
        } else {
          assert Falls(cfg, x, g);
        }
      }
    }
    MergedNops(cfg, root, b, y, f, g);
  }

  lemma EditBeforeRoot(cfg: Cfg, root: int, b: nat, y: nat, blk: Block, fate: Fate, cfg2: Cfg, j: int)
    requires Wf(cfg, root) && Edit(cfg, b, y, blk, fate, cfg2) && Live(cfg2, j) && j < root
    requires SparesRoot(root, y, fate)
    ensures NopOnly(cfg2[j])
  {
    assert Live(cfg, j) && NopOnly(cfg[j]);
    if fate.Merged? && j == fate.f {
      assert Falls(cfg, j, y);
      MergedNops(cfg, root, b, y, j, root);
    }
  }

  /** Order survives an edit. */
  lemma EditWf(cfg: Cfg, root: int, b: nat, y: nat, blk: Block, fate: Fate, cfg2: Cfg)
    requires Wf(cfg, root) && Edit(cfg, b, y, blk, fate, cfg2) && SparesRoot(root, y, fate)
    ensures Wf(cfg2, root)
  {
    forall x | Live(cfg2, x) ensures Shaped(cfg2[x]) {
      EditShaped(cfg, root, b, y, blk, fate, cfg2, x);
    }
    forall x | Live(cfg2, x) && cfg2[x].followTo >= 0 ensures Falls(cfg2, x, cfg2[x].followTo) {
      EditFalls(cfg, root, b, y, blk, fate, cfg2, x);
    }
    forall j | j < root && Live(cfg2, j) ensures NopOnly(cfg2[j]) {
      EditBeforeRoot(cfg, root, b, y, blk, fate, cfg2, j);
    }
  }

  // ---- and so are all runs

  /** Each step of the rewritten block is some number of steps of the old graph. */
  ghost predicate Matches(env: Env, cfg: Cfg, b: nat, blk: Block) {
    forall s: CState {:trigger BlockStep(env, blk, s)} :: !s.done && s.b == b && s.off < |blk.ops| ==>
      Leads(env, cfg, s, BlockStep(env, blk, s))
  }

  /** The old place of a new state: the tail of a merged block was block y. */
  function Back(cfg: Cfg, y: nat, fate: Fate, s: CState): (t: CState)
    ensures t.temps == s.temps && t.trace == s.trace && t.done == s.done
  {
    if fate.Merged? && s.b == fate.f && fate.f < |cfg| && s.off >= |cfg[fate.f].ops|
      then s.(b := y, off := s.off - |cfg[fate.f].ops|)
    else s
  }

  ghost predicate Placed(cfg2: Cfg, s: CState) {
    s.done || (Live(cfg2, s.b) && s.off < |cfg2[s.b].ops|)
  }

  ghost function BackRel(cfg: Cfg, y: nat, fate: Fate, cfg2: Cfg): (CState, CState) -> bool {
    (s, t) => Placed(cfg2, s) && t == Back(cfg, y, fate, s)
  }

  /** A step within a well-formed graph ends at an op of an accessible block. */
  lemma StepPlaced(env: Env, cfg: Cfg, root: int, s: CState)
    requires Wf(cfg, root) && Placed(cfg, s)
    ensures Placed(cfg, CStep(env, cfg, s))
  {
    if !s.done {
      var blk, u := cfg[s.b], CStep(env, cfg, s);
      assert Shaped(blk);
      if !u.done && (u.b != s.b || u.off != s.off + 1) {
        WayIsEdge(env, blk, s);
        assert Edge(blk, u.b);
        assert Live(cfg, u.b) && Shaped(cfg[u.b]);
      }
    }
  }

  /** The way out that an op of a well-formed block takes is one that the block has. */
  lemma WayIsEdge(env: Env, blk: Block, s: CState)
    requires Shaped(blk) && !s.done && s.off < |blk.ops|
    ensures var u := BlockStep(env, blk, s);
      u.done || (u == CState(s.b, s.off + 1, u.temps, u.trace, false) && s.off + 1 < |blk.ops|)
        || (Edge(blk, u.b) && u.off == 0)
  {
    assert s.off < |blk.ops| - 1 ==> Plain(blk.ops[s.off]);
  }

  lemma MergedStep(env: Env, cfg: Cfg, y: nat, f: nat, blk: Block, s: CState)
    requires f < |cfg| && y < |cfg| && f != y && Shaped(cfg[f]) && Shaped(cfg[y]) && OnlyFallsTo(cfg[f], y)
    requires SameCode(blk, cfg[y].(ops := cfg[f].ops + cfg[y].ops))
    requires !s.done && s.b == f && s.off < |blk.ops|
    ensures Back(cfg, y, Merged(f), BlockStep(env, blk, s)) == CStep(env, cfg, Back(cfg, y, Merged(f), s))
  {
    var n := |cfg[f].ops|;
    if s.off < n {
      assert blk.ops[s.off] == cfg[f].ops[s.off];
      assert Plain(cfg[f].ops[s.off]);
    } else {
      assert blk.ops[s.off] == cfg[y].ops[s.off - n];
    }
  }

  lemma EditStep(env: Env, cfg: Cfg, root: int, b: nat, y: nat, blk: Block, fate: Fate, cfg2: Cfg, s: CState)
    requires Wf(cfg, root) && Edit(cfg, b, y, blk, fate, cfg2) && Matches(env, cfg, b, blk)
    requires Placed(cfg2, s) && !s.done
    ensures Leads(env, cfg, Back(cfg, y, fate, s), Back(cfg, y, fate, CStep(env, cfg2, s)))
  {
    var x, u := s.b, CStep(env, cfg2, s);
    var code := Code2(cfg, b, y, blk, fate, x);
    assert Live(cfg, x) && Shaped(cfg[x]) && SameCode(cfg2[x], code);
    assert u == BlockStep(env, code, s);
    LeadsStep(env, cfg, Back(cfg, y, fate, s));
    if x == b {
      WayIsEdge(env, blk, s);
    } else if fate.Merged? && x == fate.f {
      assert Falls(cfg, x, y);
      assert Live(cfg, y) && Shaped(cfg[y]);
      MergedStep(env, cfg, y, fate.f, code, s);
    } else {
      WayIsEdge(env, cfg[x], s);
    }
    if fate.Merged? {
      assert Live(cfg, fate.f) && Shaped(cfg[fate.f]);
    }
  }

  lemma EditReaches(env: Env, cfg: Cfg, root: int, b: nat, y: nat, blk: Block, fate: Fate, cfg2: Cfg, s: CState,
          t: CState)
    requires Wf(cfg, root) && Edit(cfg, b, y, blk, fate, cfg2) && Matches(env, cfg, b, blk) && Wf(cfg2, root)
    requires BackRel(cfg, y, fate, cfg2)(s, t)
    ensures Reaches(CStepper(env, cfg2)(s), CStepper(env, cfg), t, BackRel(cfg, y, fate, cfg2))
  {
    var u := CStep(env, cfg2, s);
    StepPlaced(env, cfg2, root, s);
    if s.done {
      LeadsStep(env, cfg, t);
    } else {
      EditStep(env, cfg, root, b, y, blk, fate, cfg2, s);
    }
    ReachesBy(env, cfg, t, Back(cfg, y, fate, u), u, BackRel(cfg, y, fate, cfg2));
  }

  lemma ReachesBy(env: Env, cfg: Cfg, t: CState, v: CState, u: CState, R: (CState, CState) -> bool)
    requires Leads(env, cfg, t, v) && R(u, v)
    ensures Reaches(u, CStepper(env, cfg), t, R)
  {
    var k: nat :| k >= 1 && Run(CStepper(env, cfg), t, k) == v;
    assert R(u, Run(CStepper(env, cfg), t, k));
  }

  lemma BackSees(cfg: Cfg, y: nat, fate: Fate, cfg2: Cfg, s: CState, t: CState)
    requires BackRel(cfg, y, fate, cfg2)(s, t)
    ensures CObserve()(s) == CObserve()(t)
  {
  }

  lemma BackSeesSame(cfg: Cfg, y: nat, fate: Fate, cfg2: Cfg)
    ensures forall s: CState, t: CState {:trigger BackRel(cfg, y, fate, cfg2)(s, t)} ::
      BackRel(cfg, y, fate, cfg2)(s, t) ==> CObserve()(s) == CObserve()(t)
  {
    forall s: CState, t: CState | BackRel(cfg, y, fate, cfg2)(s, t) ensures CObserve()(s) == CObserve()(t) {
      BackSees(cfg, y, fate, cfg2, s, t);
    }
  }

  lemma EditSimulates(env: Env, cfg: Cfg, root: int, b: nat, y: nat, blk: Block, fate: Fate, cfg2: Cfg)
    requires Wf(cfg, root) && Edit(cfg, b, y, blk, fate, cfg2) && SparesRoot(root, y, fate)
    requires Matches(env, cfg, b, blk)
    ensures MacroStep(CStepper(env, cfg2), CObserve(), CStepper(env, cfg), CObserve(), BackRel(cfg, y, fate, cfg2))
  {
    var R := BackRel(cfg, y, fate, cfg2);
    EditWf(cfg, root, b, y, blk, fate, cfg2);
    BackSeesSame(cfg, y, fate, cfg2);
    forall s: CState, t: CState | R(s, t)
      ensures Reaches(CStepper(env, cfg2)(s), CStepper(env, cfg), t, R)
    {
      EditReaches(env, cfg, root, b, y, blk, fate, cfg2, s, t);
    }
  }

  lemma EditPreserves(env: Env, cfg: Cfg, root: int, b: nat, y: nat, blk: Block, fate: Fate, cfg2: Cfg)
    requires Wf(cfg, root) && Edit(cfg, b, y, blk, fate, cfg2) && SparesRoot(root, y, fate)
    requires Matches(env, cfg, b, blk)
    ensures Wf(cfg2, root) && CRuns(env, cfg2, root) == CRuns(env, cfg, root)
  {
    EditWf(cfg, root, b, y, blk, fate, cfg2);
    EditSimulates(env, cfg, root, b, y, blk, fate, cfg2);
    CfgLawful(env, cfg);
    assert Live(cfg2, root) && Shaped(cfg2[root]);
    assert Live(cfg, root) && Shaped(cfg[root]);
    if fate.Merged? {
      assert Live(cfg, fate.f) && Shaped(cfg[fate.f]);
    }
    assert Placed(cfg2, Enter(root));
    assert Back(cfg, y, fate, Enter(root)) == Enter(root);
    assert BackRel(cfg, y, fate, cfg2)(Enter(root), Enter(root));
    MacroStepSound(CStepper(env, cfg2), CObserve(), CStepper(env, cfg), CObserve(), BackRel(cfg, y, fate, cfg2),
      Enter(root), Enter(root));
  }

  lemma EditSize(cfg: Cfg, root: int, b: nat, y: nat, blk: Block, fate: Fate, r: Cfg)
    requires Wf(cfg, root) && Edit(cfg, b, y, blk, fate, r) && |blk.ops| <= |cfg[b].ops|
    ensures Size(r, |r|) <= Size(cfg, |cfg|)
  {
    forall x: nat | x < |cfg|
      ensures OpsOf(r, x) <= if fate.Merged? && x == fate.f then OpsOf(cfg, x) + OpsOf(cfg, y)
                             else if x == y && !fate.Kept? then 0 else OpsOf(cfg, x)
    {
      assert Live(r, x) <==> r[x].access;
      assert Live(cfg, x) <==> cfg[x].access;
      if Live(r, x) && fate.Merged? && x == fate.f {
        assert Live(cfg, y);
      }
    }
    if fate.Merged? {
      SizeMoved(cfg, r, fate.f, y, |cfg|);
    } else {
      SizeLess(cfg, r, |cfg|);
    }
  }
}
