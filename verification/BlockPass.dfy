/** The block pass as a whole: split, drop what cannot be reached, three rounds of rewriting, glue. */
module BlockPass {
  import opened Machine
  import opened Cfgs
  import opened StripNops
  import opened JmpOptimization
  import opened Reach
  import opened Pruning
  import opened Layout
  import opened FindBlocks

  const PASSES: nat := 3

  /** The loop that strips every accessible block, from block j on. */
  function StripFrom(cfg: Cfg, j: nat): (r: Cfg)
    ensures |r| == |cfg|
    decreases |cfg| - j
  {
    if j >= |cfg| then cfg else StripFrom(if cfg[j].access then StripNop(cfg, j) else cfg, j + 1)
  }

  /** The entry after that loop. */
  ghost function StrippedRoot(cfg: Cfg, root: int, j: nat): int
    decreases |cfg| - j
  {
    if j >= |cfg| then root
    else if cfg[j].access then StrippedRoot(StripNop(cfg, j), RootAfterStrip(cfg, root, j), j + 1)
    else StrippedRoot(cfg, root, j + 1)
  }

  /** The loop that optimizes the jump of every accessible block. */
  function JmpFrom(cfg: Cfg, j: nat): (r: Cfg)
    ensures |r| == |cfg|
    decreases |cfg| - j
  {
    if j >= |cfg| then cfg else JmpFrom(if cfg[j].access then JmpOptimize(cfg, j) else cfg, j + 1)
  }

  /** Every call made by that loop is tame. */
  ghost predicate TameFrom(cfg: Cfg, root: int, j: nat)
    decreases |cfg| - j
  {
    j < |cfg| ==>
      if cfg[j].access then Tame(cfg, root, j) && TameFrom(JmpOptimize(cfg, j), RootAfterCall(cfg, root, j), j + 1)
      else TameFrom(cfg, root, j + 1)
  }

  /** One round, up to the order of the source lists afterwards. */
  ghost predicate Round(cfg: Cfg, r: Cfg) {
    var t := JmpFrom(StripFrom(cfg, 0), 0);
    NextLive(t, -1) >= 0 && Rebuilt(t, [NextLive(t, -1)], r)
  }

  /** What a round relies on: all its jump optimizations are tame. */
  ghost predicate Ready(cfg: Cfg) {
    TameFrom(StripFrom(cfg, 0), StrippedRoot(cfg, NextLive(cfg, -1), 0), 0)
  }

  ghost predicate Chain(ops: seq<Op>, g: Cfg, rs: seq<Cfg>) {
    && |rs| > 0 && Splits(ops, g, rs[0])
    && forall i, j {:trigger rs[i], rs[j]} :: 0 <= i < j < |rs| && j == i + 1 ==> Round(rs[i], rs[j])
  }

  ghost predicate AllReady(rs: seq<Cfg>) { forall i {:trigger rs[i]} :: 0 <= i < |rs| - 1 ==> Ready(rs[i]) }

  /** Whatever order the source lists come in, every round of the pass is ready. */
  ghost predicate AllTame(ops: seq<Op>) {
    forall g: Cfg, rs: seq<Cfg> {:trigger Chain(ops, g, rs)} :: Chain(ops, g, rs) && |rs| <= PASSES ==>
      Ready(rs[|rs| - 1])
  }

  /** Split, put through three rounds, and laid out again. */
  ghost predicate Optimized(ops: seq<Op>, out: seq<Op>) {
    exists g: Cfg, rs: seq<Cfg>, base: seq<nat> {:trigger Chain(ops, g, rs), Laid(rs[3], base, out)} ::
      |rs| == 4 && Chain(ops, g, rs) && Laid(rs[3], base, out)
  }

  // ---- runs

  lemma {:induction false} StripFromPreserves(env: Env, cfg: Cfg, root: int, j: nat)
    requires Wf(cfg, root)
    ensures Keeps(env, cfg, root, StripFrom(cfg, j), StrippedRoot(cfg, root, j))
    decreases |cfg| - j
  {
    if j < |cfg| {
      if cfg[j].access {
        StripPreserves(env, cfg, root, j);
        StripFromPreserves(env, StripNop(cfg, j), RootAfterStrip(cfg, root, j), j + 1);
      } else {
        StripFromPreserves(env, cfg, root, j + 1);
      }
    }
  }

  lemma {:induction false} JmpFromPreserves(env: Env, cfg: Cfg, root: int, j: nat) returns (root2: int)
    requires Wf(cfg, root) && TameFrom(cfg, root, j)
    ensures var r := JmpFrom(cfg, j); Keeps(env, cfg, root, r, root2)
    decreases |cfg| - j
  {
    if j >= |cfg| {
      root2 := root;
    } else if cfg[j].access {
      JmpOptimizePreserves(env, cfg, root, j);
      root2 := JmpFromPreserves(env, JmpOptimize(cfg, j), RootAfterCall(cfg, root, j), j + 1);
    } else {
      root2 := JmpFromPreserves(env, cfg, root, j + 1);
    }
  }

  lemma FirstIs(r: Cfg, start: nat)
    requires Live(r, start) && forall j {:trigger Live(r, j)} :: Live(r, j) ==> j >= start
    ensures NextLive(r, -1) == start
  {
    NextLiveIs(r, -1);
  }

  lemma RoundPreserves(env: Env, cfg: Cfg, r: Cfg)
    requires Wf(cfg, NextLive(cfg, -1)) && Ready(cfg) && Round(cfg, r)
    ensures Wf(r, NextLive(r, -1)) && CRuns(env, r, NextLive(r, -1)) == CRuns(env, cfg, NextLive(cfg, -1))
    ensures Size(r, |r|) <= Size(cfg, |cfg|)
  {
    var root := NextLive(cfg, -1);
    var s := StripFrom(cfg, 0);
    var t := JmpFrom(s, 0);
    StripFromPreserves(env, cfg, root, 0);
    var root3 := JmpFromPreserves(env, s, StrippedRoot(cfg, root, 0), 0);
    var start := NextLive(t, -1);
    PrunePreserves(env, t, root3, start, r);
    NextLiveIs(t, -1);
    forall j | Live(r, j) ensures j >= start {
      StaysLive(t, root3, start, r, j);
    }
    FirstIs(r, start);
    PruneSize(t, root3, start, r);
  }

  lemma {:induction false} ChainPreserves(env: Env, c: Code, g: Cfg, rs: seq<Cfg>)
    requires Chain(c.ops, g, rs) && c.tryCatch == [] && AllReady(rs)
    ensures var r := rs[|rs| - 1];
      Wf(r, NextLive(r, -1)) && CRuns(env, r, NextLive(r, -1)) == Runs(env, c) && Size(r, |r|) <= |c.ops|
    decreases |rs|
  {
    if |rs| == 1 {
      SplitPreserves(env, c, g, rs[0]);
      NextLiveIs(rs[0], -1);
      FirstIs(rs[0], 0);
      var e := SizeFits(c.ops, g, rs[0], |rs[0]|);
    } else {
      var n := |rs| - 1;
      var q := rs[..n];
      assert Chain(c.ops, g, q) && AllReady(q);
      ChainPreserves(env, c, g, q);
      var i, j := n - 1, n;
      assert q[i] == rs[i] && Round(rs[i], rs[j]) && Ready(rs[i]);
      RoundPreserves(env, rs[i], rs[j]);
    }
  }

  /** Any number of rounds between splitting and gluing leaves every run as it was, and the
      code no longer. */
  lemma BlockPassPreserves(env: Env, c: Code, g: Cfg, rs: seq<Cfg>, base: seq<nat>, out: seq<Op>, temps: nat)
    requires Chain(c.ops, g, rs) && c.tryCatch == [] && AllReady(rs) && Laid(rs[|rs| - 1], base, out)
    ensures Runs(env, Glued(out, temps)) == Runs(env, c) && |out| <= |c.ops|
  {
    ChainPreserves(env, c, g, rs);
    var r := rs[|rs| - 1];
    LaidPreserves(env, r, NextLive(r, -1), base, out, temps);
    NoLonger(r, base, |r|);
  }

  // ---- for the step by step pass

  lemma ChainMore(ops: seq<Op>, g: Cfg, rs: seq<Cfg>, r: Cfg)
    requires Chain(ops, g, rs) && AllReady(rs) && Ready(rs[|rs| - 1]) && Round(rs[|rs| - 1], r)
    ensures Chain(ops, g, rs + [r]) && AllReady(rs + [r])
  {
    var q := rs + [r];
    forall i, j | 0 <= i < j < |q| && j == i + 1 ensures Round(q[i], q[j]) {
      if j < |rs| {
        assert q[i] == rs[i] && q[j] == rs[j];
      }
    }
    forall i | 0 <= i < |q| - 1 ensures Ready(q[i]) {
      assert q[i] == rs[i];
    }
  }

  function LiveSet(cfg: Cfg): set<nat> { set x: nat | x < |cfg| && cfg[x].access }

  lemma LiveWithin(cfg: Cfg, root: int)
    requires Wf(cfg, root)
    ensures Within(cfg, LiveSet(cfg)) && NextLive(cfg, -1) >= 0 && NextLive(cfg, -1) in LiveSet(cfg)
  {
    NextLiveIs(cfg, -1);
    forall x: nat, y: nat | x in LiveSet(cfg) && Edge(cfg[x], y) ensures y in LiveSet(cfg) {
      assert Live(cfg, x) && Live(cfg, y);
    }
  }

  ghost function StartSet(ops: seq<Op>): set<nat> { set x: nat | x < |ops| && IsStart(ops, x) }

  lemma StartsWithin(ops: seq<Op>, g: Cfg)
    requires Plainly(ops) && Split(ops, g)
    ensures Within(g, StartSet(ops)) && 0 in StartSet(ops)
  {
    forall x: nat, y: nat | x in StartSet(ops) && Edge(g[x], y) ensures y in StartSet(ops) {
      EdgeIsStart(ops, g, x, y);
    }
  }
}
