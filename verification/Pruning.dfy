/** Dropping the blocks that cannot be reached changes no run. */
module Pruning {
  import opened Simulation
  import opened Machine
  import opened Cfgs
  import opened CfgEdit
  import opened BlockDeletion
  import opened JmpOptimization
  import opened Reach

  // ---- starting among NOPs

  lemma {:induction false} RunBehaviour<S(!new), E(!new)>(step: S -> S, obs: S -> Obs<E>, s: S, k: nat)
    requires Lawful(step, obs)
    ensures Behaviour(step, obs, Run(step, s, k)) == Behaviour(step, obs, s)
    decreases k
  {
    if k > 0 {
      RunBehaviour(step, obs, s, k - 1);
      StepBehaviour(step, obs, Run(step, s, k - 1));
    }
  }

  lemma LeadsBehaviour(env: Env, cfg: Cfg, s: CState, u: CState)
    requires LeadsOrIs(env, cfg, s, u)
    ensures Behaviour(CStepper(env, cfg), CObserve(), u) == Behaviour(CStepper(env, cfg), CObserve(), s)
  {
    CfgLawful(env, cfg);
    if s != u {
      var k: nat :| k >= 1 && Run(CStepper(env, cfg), s, k) == u;
      RunBehaviour(CStepper(env, cfg), CObserve(), s, k);
    }
  }

  /** Accessible blocks of NOPs in front of block y come to the same real op. */
  lemma {:induction false} SamePast(cfg: Cfg, root: int, x: nat, y: nat)
    requires Wf(cfg, root) && Live(cfg, x) && Live(cfg, y) && x <= y
    requires forall j {:trigger Live(cfg, j)} :: x <= j < y && Live(cfg, j) ==> NopOnly(cfg[j])
    ensures Past(cfg, x) == Past(cfg, y)
    decreases |cfg| - x
  {
    if x < y {
      assert Shaped(cfg[x]) && NopOnly(cfg[x]);
      assert cfg[x].ops[|cfg[x].ops| - 1].Nop?;
      var h := cfg[x].followTo;
      assert Falls(cfg, x, h);
      if h <= y {
        SamePast(cfg, root, h, y);
      } else {
        SamePast(cfg, root, y, h);
      }
    }
  }

  lemma SamePastRuns(env: Env, cfg: Cfg, root: int, x: nat, y: nat)
    requires Wf(cfg, root) && Live(cfg, x) && Live(cfg, y) && Past(cfg, x) == Past(cfg, y)
    ensures CRuns(env, cfg, x) == CRuns(env, cfg, y)
  {
    PastLeads(env, cfg, root, x, Enter(x));
    PastLeads(env, cfg, root, y, Enter(y));
    var t := Past(cfg, x);
    var u := Enter(x).(b := t, off := FirstReal(cfg[t].ops));
    assert u == Enter(y).(b := t, off := FirstReal(cfg[t].ops));
    LeadsBehaviour(env, cfg, Enter(x), u);
    LeadsBehaviour(env, cfg, Enter(y), u);
  }

  // ---- the reachable part

  ghost predicate Prunes(cfg: Cfg, root: int, start: nat, r: Cfg) {
    Wf(cfg, root) && start == NextLive(cfg, -1) && Rebuilt(cfg, [start], r)
  }

  lemma StaysLive(cfg: Cfg, root: int, start: nat, r: Cfg, x: int)
    requires Prunes(cfg, root, start, r) && Live(r, x)
    ensures Live(cfg, x)
  {
    assert r[x].access && ReachableFrom(cfg, [start], x);
    var a :| a in [start] && Reachable(cfg, a, x);
    var p: seq<nat> :| Path(cfg, p) && p[0] == a && p[|p| - 1] == x;
    NextLiveIs(cfg, -1);
    assert Live(cfg, start);
    forall x: nat, y: nat | x < |cfg| && cfg[x].access && Edge(cfg[x], y) ensures y < |cfg| && cfg[y].access {
      assert Live(cfg, x) && Live(cfg, y);
    }
    ReachStays(cfg, p, cfg);
  }

  /** What is accessible afterwards leads only to what is accessible afterwards. */
  lemma PrunedClosed(cfg: Cfg, root: int, start: nat, r: Cfg, x: nat, y: nat)
    requires Prunes(cfg, root, start, r) && Live(r, x) && Edge(cfg[x], y)
    ensures Live(r, y)
  {
    StaysLive(cfg, root, start, r, x);
    assert Live(cfg, y);
    assert r[x].access && ReachableFrom(cfg, [start], x);
    var a :| a in [start] && Reachable(cfg, a, x);
    ReachLast(cfg, a, x, y);
    assert r[y].access;
  }

  lemma PrunedSources(cfg: Cfg, root: int, start: nat, r: Cfg)
    requires Prunes(cfg, root, start, r)
    ensures SourcesExact(r)
  {
    forall y | Live(r, y) ensures NoDup(r[y].sources) {
      var z: nat := y;
      assert NoDup(r[z].sources);
    }
    forall x, y | Live(r, x) && Edge(r[x], y) ensures Live(r, y) && x in r[y].sources {
      PrunedClosed(cfg, root, start, r, x, y);
    }
    forall x, y | Live(r, x) && Live(r, y) && x in r[y].sources ensures Edge(r[x], y) {
    }
  }

  lemma PrunedWf(cfg: Cfg, root: int, start: nat, r: Cfg)
    requires Prunes(cfg, root, start, r)
    ensures Wf(r, start)
  {
    PrunedSources(cfg, root, start, r);
    NextLiveIs(cfg, -1);
    forall x | Live(r, x) ensures Live(cfg, x) && Shaped(r[x]) && (r[x].followTo >= 0 ==> Falls(r, x, r[x].followTo)) {
      StaysLive(cfg, root, start, r, x);
      assert SameCode(r[x], cfg[x]);
      if r[x].followTo >= 0 {
        PrunedFalls(cfg, root, start, r, x);
      }
    }
    ReachSelf(cfg, start);
    assert start in [start] && ReachableFrom(cfg, [start], start) && r[start].access;
    forall j | Live(r, j) ensures j >= start {
      StaysLive(cfg, root, start, r, j);
    }
  }

  lemma PrunedFalls(cfg: Cfg, root: int, start: nat, r: Cfg, x: nat)
    requires Prunes(cfg, root, start, r) && Live(r, x) && r[x].followTo >= 0
    ensures Falls(r, x, r[x].followTo)
  {
    StaysLive(cfg, root, start, r, x);
    PrunedClosed(cfg, root, start, r, x, cfg[x].followTo);
    assert Falls(cfg, x, cfg[x].followTo);
    forall j | x < j < r[x].followTo && Live(r, j) ensures NopOnly(r[j]) {
      StaysLive(cfg, root, start, r, j);
    }
  }

  lemma SameCodeStep(env: Env, r: Cfg, cfg: Cfg, s: CState)
    requires |r| == |cfg| && (s.done || (0 <= s.b < |r| && SameCode(r[s.b], cfg[s.b])))
    ensures CStep(env, r, s) == CStep(env, cfg, s)
  {
  }

  lemma PrunedStep(env: Env, cfg: Cfg, root: int, start: nat, r: Cfg, s: CState)
    requires Prunes(cfg, root, start, r) && Wf(r, start) && Placed(r, s)
    ensures Leads(env, cfg, s, CStep(env, r, s)) && Placed(r, CStep(env, r, s))
  {
    StepPlaced(env, r, start, s);
    if !s.done {
      StaysLive(cfg, root, start, r, s.b);
      assert SameCode(r[s.b], cfg[s.b]);
    }
    SameCodeStep(env, r, cfg, s);
    LeadsStep(env, cfg, s);
  }

  lemma PrunedSimulates(env: Env, cfg: Cfg, root: int, start: nat, r: Cfg)
    requires Prunes(cfg, root, start, r)
    ensures MacroStep(CStepper(env, r), CObserve(), CStepper(env, cfg), CObserve(), SameRel(r))
  {
    var R := SameRel(r);
    PrunedWf(cfg, root, start, r);
    forall s: CState, t: CState | R(s, t) ensures Reaches(CStepper(env, r)(s), CStepper(env, cfg), t, R) {
      PrunedStep(env, cfg, root, start, r, s);
      ReachesBy(env, cfg, t, CStep(env, r, s), CStep(env, r, s), R);
    }
  }

  /** Marking afresh what the first accessible block reaches keeps the graph well formed and changes no run. */
  lemma PrunePreserves(env: Env, cfg: Cfg, root: int, start: nat, r: Cfg)
    requires Prunes(cfg, root, start, r)
    ensures Wf(r, start) && CRuns(env, r, start) == CRuns(env, cfg, root)
  {
    PrunedWf(cfg, root, start, r);
    PrunedSimulates(env, cfg, root, start, r);
    CfgLawful(env, cfg);
    assert Live(r, start) && Shaped(r[start]);
    assert Placed(r, Enter(start));
    assert SameRel(r)(Enter(start), Enter(start));
    MacroStepSound(CStepper(env, r), CObserve(), CStepper(env, cfg), CObserve(), SameRel(r), Enter(start),
      Enter(start));
    NextLiveIs(cfg, -1);
    assert Live(cfg, root) && Live(cfg, start);
    SamePast(cfg, root, start, root);
    SamePastRuns(env, cfg, root, start, root);
  }

  lemma PruneSize(cfg: Cfg, root: int, start: nat, r: Cfg)
    requires Prunes(cfg, root, start, r)
    ensures Size(r, |r|) <= Size(cfg, |cfg|)
  {
    forall x: nat | x < |cfg| ensures OpsOf(r, x) <= OpsOf(cfg, x) {
      if r[x].access {
        StaysLive(cfg, root, start, r, x);
        assert SameCode(r[x], cfg[x]);
      }
    }
    SizeLess(cfg, r, |cfg|);
  }
}
