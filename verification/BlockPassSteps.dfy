/** What the loops of the block pass and its assembly achieve, block by block: NOPs go, every accessible block has its
    jump optimized once a round, and a JMP to the block that comes next is left out of the new code. */
module BlockPassSteps {
  import opened Machine
  import opened Cfgs
  import opened CfgEdit
  import opened Redirects
  import opened BlockDeletion
  import opened StripNops
  import opened JmpOptimization
  import opened Layout
  import opened BlockPass

  // ---- one block is stripped

  predicate NopFree(ops: seq<Op>) { forall i {:trigger ops[i]} :: 0 <= i < |ops| ==> !ops[i].Nop? }

  lemma {:induction false} RealIsRest(ops: seq<Op>)
    ensures NopFree(Real(ops)) && multiset(Real(ops)) == multiset(ops)[Nop := 0]
  {
    if ops != [] {
      RealIsRest(ops[1..]);
      assert ops == [ops[0]] + ops[1..];
    }
  }

  /** The blocks hold the same ops. */
  ghost predicate SameOps(cfg: Cfg, r: Cfg) {
    |r| == |cfg| && forall x: nat {:trigger r[x]} :: x < |cfg| ==>
      r[x].ops == cfg[x].ops && r[x].protected == cfg[x].protected && r[x].access == cfg[x].access
  }

  lemma {:induction false} MoveSourcesSame(cfg: Cfg, l: seq<nat>, b: nat, to: int)
    ensures SameOps(cfg, MoveSources(cfg, l, b, to))
  {
    if l != [] {
      MoveSourcesSame(cfg, l[..|l| - 1], b, to);
    }
  }

  /** A block with nothing but NOPs is deleted, or keeps one if it starts a try block; any other loses its NOPs and
      nothing else. No other block gets or loses an op. */
  lemma StripAchieves(cfg: Cfg, root: int, b: nat, r: Cfg)
    requires Wf(cfg, root) && Live(cfg, b) && r == StripNop(cfg, b)
    ensures |r| == |cfg| && (Live(r, b) <==> !NopOnly(cfg[b]) || cfg[b].protected)
    ensures NopOnly(cfg[b]) ==> r[b].ops == [Nop]
    ensures !NopOnly(cfg[b]) ==> NopFree(r[b].ops) && multiset(r[b].ops) == multiset(cfg[b].ops)[Nop := 0]
    ensures forall x: nat {:trigger r[x]} :: x < |cfg| && x != b ==>
              r[x].ops == cfg[x].ops && Live(r, x) == Live(cfg, x)
    ensures forall x: nat {:trigger r[x]} :: x < |cfg| ==> r[x].protected == cfg[x].protected
  {
    assert Shaped(cfg[b]);
    RealIsRest(cfg[b].ops);
    var q := WithOps(cfg, b, [Nop]);
    if NopOnly(cfg[b]) {
      assert cfg[b].ops[|cfg[b].ops| - 1].Nop?;
      var p := MoveSources(q, q[b].sources, b, cfg[b].followTo);
      MoveSourcesSame(q, q[b].sources, b, cfg[b].followTo);
      forall x: nat {:trigger r[x]} | x < |cfg| && x != b
        ensures r[x].ops == cfg[x].ops && Live(r, x) == Live(cfg, x) && r[x].protected == cfg[x].protected
      {
        assert r[x] == if cfg[b].protected then q[x] else p[x];
      }
    }
  }

  // ---- all of them

  /** No NOP is left, but for the start of a try block. */
  ghost predicate Bare(blk: Block) { NopFree(blk.ops) || (blk.ops == [Nop] && blk.protected) }

  ghost predicate BareTo(cfg: Cfg, n: nat) {
    forall x: nat {:trigger Live(cfg, x)} :: x < n && Live(cfg, x) ==> Bare(cfg[x])
  }

  lemma StripOneMore(cfg: Cfg, root: int, j: nat, r: Cfg)
    requires Wf(cfg, root) && BareTo(cfg, j) && Live(cfg, j) && r == StripNop(cfg, j)
    ensures BareTo(r, j + 1)
  {
    StripAchieves(cfg, root, j, r);
    forall x: nat | x < j + 1 && Live(r, x) ensures Bare(r[x]) {
      assert x < j ==> Live(cfg, x);
    }
  }

  /** The loop strips every accessible block. */
  lemma {:induction false} StripFromAchieves(env: Env, cfg: Cfg, root: int, j: nat)
    requires Wf(cfg, root) && BareTo(cfg, j)
    ensures BareTo(StripFrom(cfg, j), |cfg|)
    decreases |cfg| - j
  {
    if j < |cfg| {
      if cfg[j].access {
        StripPreserves(env, cfg, root, j);
        StripOneMore(cfg, root, j, StripNop(cfg, j));
        StripFromAchieves(env, StripNop(cfg, j), RootAfterStrip(cfg, root, j), j + 1);
      } else {
        StripFromAchieves(env, cfg, root, j + 1);
      }
    }
  }

  /** At the beginning of a round, from any graph in order. */
  lemma NopsAreGone(env: Env, cfg: Cfg, root: int, x: nat)
    requires Wf(cfg, root) && Live(StripFrom(cfg, 0), x)
    ensures Bare(StripFrom(cfg, 0)[x])
  {
    StripFromAchieves(env, cfg, root, 0);
  }

  // ---- every accessible block has its turn

  /** The graph after the turns of the first n blocks. */
  function AfterCalls(cfg: Cfg, n: nat): (r: Cfg)
    requires n <= |cfg|
    ensures |r| == |cfg|
  {
    if n == 0 then cfg
    else
      var q := AfterCalls(cfg, n - 1);
      if q[n - 1].access then JmpOptimize(q, n - 1) else q
  }

  lemma {:induction false} CallsFrom(cfg: Cfg, j: nat)
    requires j <= |cfg|
    ensures JmpFrom(AfterCalls(cfg, j), j) == AfterCalls(cfg, |cfg|)
    decreases |cfg| - j
  {
    if j < |cfg| {
      CallsFrom(cfg, j + 1);
    }
  }

  /** A round calls zend_jmp_optimization once for every block that is accessible when its turn comes, in order. */
  lemma OneCallEach(cfg: Cfg)
    ensures JmpFrom(cfg, 0) == AfterCalls(cfg, |cfg|)
  {
    CallsFrom(cfg, 0);
  }

  // ---- the new code

  /** Block t is the accessible block that comes after block b. */
  ghost predicate ComesNext(cfg: Cfg, b: nat, t: int) {
    b < t && Live(cfg, t) && forall j {:trigger Live(cfg, j)} :: b < j < t ==> !Live(cfg, j)
  }

  /** A block takes up as many places in the new code as it has ops, but for a JMP to the block that comes next, which
      is left out; one that is not accessible takes up none. */
  lemma PlacesTaken(cfg: Cfg, base: seq<nat>, out: seq<Op>, b: nat)
    requires Laid(cfg, base, out) && b < |cfg|
    ensures |base| == |cfg| + 1
    ensures base[b + 1] - base[b] ==
      if !cfg[b].access then 0
      else if Last(cfg[b]).Jmp? && ComesNext(cfg, b, cfg[b].op1To) then |cfg[b].ops| - 1 else |cfg[b].ops|
  {
    NextLiveIs(cfg, b);
    var i, j := b, b + 1;
    assert base[j] == base[i] + Len(cfg, i);
  }
}
