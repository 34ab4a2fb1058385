/** strip_nop: a block loses its NOPs; a block with nothing else is deleted. */
module StripNops {
  import opened Simulation
  import opened Machine
  import opened Cfgs
  import opened CfgEdit
  import opened BlockDeletion

  /** The ops that are not NOPs. */
  function Real(ops: seq<Op>): seq<Op> {
    if ops == [] then [] else if ops[0].Nop? then Real(ops[1..]) else [ops[0]] + Real(ops[1..])
  }

  function WithOps(cfg: Cfg, b: nat, ops: seq<Op>): (r: Cfg)
    requires b < |cfg|
    ensures |r| == |cfg|
  {
    cfg[b := cfg[b].(ops := ops)]
  }

  function StripNop(cfg: Cfg, b: nat): (r: Cfg)
    requires b < |cfg|
    ensures |r| == |cfg|
  {
    if cfg[b].ops == [] then cfg
    else if !NopOnly(cfg[b]) then WithOps(cfg, b, Real(cfg[b].ops))
    else if cfg[b].followTo >= 0 then DeleteBlock(WithOps(cfg, b, [Nop]), b, cfg[b].followTo)
    else WithOps(cfg, b, [Nop])
  }

  // ---- one NOP less

  function DropAt(ops: seq<Op>, i: nat): (r: seq<Op>)
    requires i < |ops|
    ensures |r| == |ops| - 1
    ensures forall k {:trigger r[k]} :: 0 <= k < |r| ==> r[k] == if k < i then ops[k] else ops[k + 1]
  {
    ops[..i] + ops[i + 1..]
  }

  ghost predicate Drops(cfg: Cfg, root: int, b: nat, i: nat, r: Cfg) {
    && Wf(cfg, root) && Live(cfg, b) && i < |cfg[b].ops| && |cfg[b].ops| >= 2 && cfg[b].ops[i].Nop?
    && r == WithOps(cfg, b, DropAt(cfg[b].ops, i))
  }

  lemma DropShaped(blk: Block, i: nat)
    requires Shaped(blk) && i < |blk.ops| && |blk.ops| >= 2 && blk.ops[i].Nop?
    ensures Shaped(blk.(ops := DropAt(blk.ops, i))) && (NopOnly(blk) ==> NopOnly(blk.(ops := DropAt(blk.ops, i))))
  {
    var ops := DropAt(blk.ops, i);
    var n := |ops| - 1;
    assert ops[n] == if n < i then blk.ops[n] else blk.ops[n + 1];
    forall k | 0 <= k < n ensures Plain(ops[k]) {
      assert Plain(blk.ops[k]);
      assert k + 1 < n + 1 ==> Plain(blk.ops[k + 1]);
    }
  }

  lemma DropWf(cfg: Cfg, root: int, b: nat, i: nat, r: Cfg)
    requires Drops(cfg, root, b, i, r)
    ensures Wf(r, root)
  {
    assert forall x {:trigger Live(r, x)} {:trigger Live(cfg, x)} :: Live(r, x) <==> Live(cfg, x);
    forall x | Live(r, x) ensures Shaped(r[x]) && (NopOnly(cfg[x]) ==> NopOnly(r[x])) {
      assert Live(cfg, x) && Shaped(cfg[x]);
      if x == b {
        DropShaped(cfg[b], i);
      }
    }
    DropSources(cfg, root, b, i, r);
    forall x | Live(r, x) && r[x].followTo >= 0 ensures Falls(r, x, r[x].followTo) {
      assert Live(cfg, x) && Falls(cfg, x, cfg[x].followTo);
    }
  }

  lemma DropSources(cfg: Cfg, root: int, b: nat, i: nat, r: Cfg)
    requires Drops(cfg, root, b, i, r)
    ensures SourcesExact(r)
  {
    forall x, y | Live(r, x) && Edge(r[x], y) ensures Live(r, y) && x in r[y].sources {
      assert Live(cfg, x) && Edge(cfg[x], y) && Live(cfg, y);
    }
    forall x, y | Live(r, x) && Live(r, y) && x in r[y].sources ensures Edge(r[x], y) {
      assert x in cfg[y].sources && Edge(cfg[x], y);
    }
    forall y | Live(r, y) ensures NoDup(r[y].sources) {
      assert Live(cfg, y);
    }
  }

  /** The place in the old block. */
  function Up(b: nat, i: nat, s: CState): (t: CState)
    ensures t.temps == s.temps && t.trace == s.trace && t.done == s.done
  {
    if !s.done && s.b == b && s.off >= i then s.(off := s.off + 1) else s
  }

  ghost function UpRel(b: nat, i: nat, r: Cfg): (CState, CState) -> bool {
    (s, t) => Placed(r, s) && t == Up(b, i, s)
  }

  /** Within the block: where the old code is after a step, up to the NOP. */
  lemma DropBlockStep(env: Env, blk: Block, b: nat, i: nat, s: CState)
    requires Shaped(blk) && i < |blk.ops| && |blk.ops| >= 2 && blk.ops[i].Nop?
    requires !s.done && s.b == b && s.off < |blk.ops| - 1
    ensures var u := BlockStep(env, blk.(ops := DropAt(blk.ops, i)), s);
      var v := BlockStep(env, blk, Up(b, i, s));
      if !v.done && v.b == b && v.off == i && i > 0 then
        u == (if i + 1 < |blk.ops| then v else v.(b := blk.followTo, off := 0))
      else v == if !u.done && u.b == b && u.off > 0 then Up(b, i, u) else u
  {
    var ops := DropAt(blk.ops, i);
    var t := Up(b, i, s);
    assert ops[s.off] == blk.ops[t.off];
    if t.off < |blk.ops| - 1 {
      assert Plain(blk.ops[t.off]);
    }
  }

  lemma NopStep(env: Env, cfg: Cfg, s: CState)
    requires !s.done && Live(cfg, s.b) && s.off < |cfg[s.b].ops| && cfg[s.b].ops[s.off].Nop?
    ensures CStep(env, cfg, s) == if s.off + 1 < |cfg[s.b].ops| then s.(off := s.off + 1)
      else s.(b := cfg[s.b].followTo, off := 0)
  {
  }

  lemma DropStep(env: Env, cfg: Cfg, root: int, b: nat, i: nat, r: Cfg, s: CState)
    requires Drops(cfg, root, b, i, r) && Placed(r, s)
    ensures Leads(env, cfg, Up(b, i, s), Up(b, i, CStep(env, r, s)))
  {
    var t, u := Up(b, i, s), CStep(env, r, s);
    var v := CStep(env, cfg, t);
    LeadsStep(env, cfg, t);
    if !s.done {
      assert Shaped(cfg[b]);
      if s.b == b {
        DropBlockStep(env, cfg[b], b, i, s);
      }
      if v != Up(b, i, u) {
        assert v.b == b && v.off == i && !v.done;
        NopStep(env, cfg, v);
        LeadsStep(env, cfg, v);
        LeadsTrans(env, cfg, t, v, Up(b, i, u));
      }
    }
  }

  lemma DropReaches(env: Env, cfg: Cfg, root: int, b: nat, i: nat, r: Cfg, s: CState, t: CState)
    requires Drops(cfg, root, b, i, r) && Wf(r, root) && UpRel(b, i, r)(s, t)
    ensures Reaches(CStepper(env, r)(s), CStepper(env, cfg), t, UpRel(b, i, r))
  {
    StepPlaced(env, r, root, s);
    DropStep(env, cfg, root, b, i, r, s);
    ReachesBy(env, cfg, t, Up(b, i, CStep(env, r, s)), CStep(env, r, s), UpRel(b, i, r));
  }

  lemma UpSees(b: nat, i: nat, r: Cfg, s: CState, t: CState)
    requires UpRel(b, i, r)(s, t)
    ensures CObserve()(s) == CObserve()(t)
  {
  }

  lemma DropSimulates(env: Env, cfg: Cfg, root: int, b: nat, i: nat, r: Cfg)
    requires Drops(cfg, root, b, i, r) && Wf(r, root)
    ensures MacroStep(CStepper(env, r), CObserve(), CStepper(env, cfg), CObserve(), UpRel(b, i, r))
  {
    var R := UpRel(b, i, r);
    forall s: CState, t: CState | R(s, t) ensures CObserve()(s) == CObserve()(t) {
      UpSees(b, i, r, s, t);
    }
    forall s: CState, t: CState | R(s, t) ensures Reaches(CStepper(env, r)(s), CStepper(env, cfg), t, R) {
      DropReaches(env, cfg, root, b, i, r, s, t);
    }
  }

  lemma DropPreserves(env: Env, cfg: Cfg, root: int, b: nat, i: nat, r: Cfg)
    requires Drops(cfg, root, b, i, r)
    ensures Keeps(env, cfg, root, r, root)
  {
    DropWf(cfg, root, b, i, r);
    DropSimulates(env, cfg, root, b, i, r);
    SizeLess(cfg, r, |cfg|);
    CfgLawful(env, cfg);
    assert Live(r, root) && Shaped(r[root]);
    assert Placed(r, Enter(root));
    var t := Up(b, i, Enter(root));
    assert UpRel(b, i, r)(Enter(root), t);
    MacroStepSound(CStepper(env, r), CObserve(), CStepper(env, cfg), CObserve(), UpRel(b, i, r), Enter(root), t);
    if t != Enter(root) {
      NopStep(env, cfg, Enter(root));
      StepBehaviour(CStepper(env, cfg), CObserve(), Enter(root));
    }
  }

  // ---- all of them

  lemma {:induction false} RealFacts(ops: seq<Op>)
    ensures |Real(ops)| <= |ops| && forall k {:trigger Real(ops)[k]} :: 0 <= k < |Real(ops)| ==> !Real(ops)[k].Nop?
    ensures (forall k {:trigger ops[k]} :: 0 <= k < |ops| ==> !ops[k].Nop?) ==> Real(ops) == ops
    ensures Real(ops) == [] ==> forall k {:trigger ops[k]} :: 0 <= k < |ops| ==> ops[k].Nop?
  {
    if ops != [] {
      RealFacts(ops[1..]);
      assert forall k {:trigger ops[k]} :: 0 < k < |ops| ==> ops[k] == ops[1..][k - 1];
    }
  }

  lemma {:induction false} RealDrop(ops: seq<Op>, i: nat)
    requires i < |ops| && ops[i].Nop?
    ensures Real(DropAt(ops, i)) == Real(ops)
  {
    var r := DropAt(ops, i);
    if i > 0 {
      RealDrop(ops[1..], i - 1);
      assert r[0] == ops[0] && r[1..] == DropAt(ops[1..], i - 1);
    } else {
      assert r == ops[1..];
    }
  }

  lemma {:induction false} RealPreserves(env: Env, cfg: Cfg, root: int, b: nat)
    requires Wf(cfg, root) && Live(cfg, b) && !NopOnly(cfg[b])
    ensures var r := WithOps(cfg, b, Real(cfg[b].ops)); Keeps(env, cfg, root, r, root)
    decreases |cfg[b].ops|
  {
    var ops := cfg[b].ops;
    RealFacts(ops);
    if exists i :: 0 <= i < |ops| && ops[i].Nop? {
      var i :| 0 <= i < |ops| && ops[i].Nop?;
      var k :| 0 <= k < |ops| && !ops[k].Nop?;
      var r := WithOps(cfg, b, DropAt(ops, i));
      DropPreserves(env, cfg, root, b, i, r);
      RealDrop(ops, i);
      assert !NopOnly(r[b]) by {
        assert r[b].ops[if k < i then k else k - 1] == ops[k];
      }
      RealPreserves(env, r, root, b);
      assert WithOps(r, b, Real(r[b].ops)) == WithOps(cfg, b, Real(ops));
    } else {
      assert WithOps(cfg, b, Real(ops)) == cfg;
    }
  }

  lemma {:induction false} OneNopPreserves(env: Env, cfg: Cfg, root: int, b: nat)
    requires Wf(cfg, root) && Live(cfg, b) && NopOnly(cfg[b])
    ensures var r := WithOps(cfg, b, [Nop]); Keeps(env, cfg, root, r, root)
    decreases |cfg[b].ops|
  {
    var ops := cfg[b].ops;
    assert Shaped(cfg[b]);
    if |ops| >= 2 {
      var r := WithOps(cfg, b, DropAt(ops, 0));
      DropPreserves(env, cfg, root, b, 0, r);
      assert NopOnly(r[b]);
      OneNopPreserves(env, r, root, b);
      assert WithOps(r, b, [Nop]) == WithOps(cfg, b, [Nop]);
    } else {
      assert ops == [Nop];
      assert WithOps(cfg, b, [Nop]) == cfg;
    }
  }

  ghost predicate Deletable(cfg: Cfg, b: nat)
    requires b < |cfg|
  {
    cfg[b].ops != [] && NopOnly(cfg[b]) && cfg[b].followTo >= 0 && !cfg[b].protected
  }

  /** The entry after strip_nop. */
  ghost function RootAfterStrip(cfg: Cfg, root: int, b: nat): int
    requires b < |cfg|
  {
    if Deletable(cfg, b) && root == b then cfg[b].followTo else root
  }

  /** strip_nop keeps the invariant and changes no run. */
  lemma StripPreserves(env: Env, cfg: Cfg, root: int, b: nat)
    requires Wf(cfg, root) && Live(cfg, b)
    ensures var r, root2 := StripNop(cfg, b), RootAfterStrip(cfg, root, b);
      Keeps(env, cfg, root, r, root2)
  {
    assert Shaped(cfg[b]);
    if !NopOnly(cfg[b]) {
      RealPreserves(env, cfg, root, b);
    } else {
      assert cfg[b].ops[|cfg[b].ops| - 1].Nop?;
      var r := WithOps(cfg, b, [Nop]);
      OneNopPreserves(env, cfg, root, b);
      if !cfg[b].protected {
        assert Falls(r, b, r[b].followTo) by {
          assert Live(r, b);
        }
        assert r[b].ops[0].Nop?;
        DeletePreserves(env, r, root, b, r[b].followTo, r);
      }
    }
  }

  lemma RealHead(ops: seq<Op>)
    requires ops != [] && ops[0].Nop?
    ensures Real(ops) == Real(ops[1..])
    ensures (forall k {:trigger ops[k]} :: 0 <= k < |ops| ==> ops[k].Nop?) <==>
      forall k {:trigger ops[1..][k]} :: 0 <= k < |ops| - 1 ==> ops[1..][k].Nop?
  {
    assert forall k {:trigger ops[k]} :: 0 < k < |ops| ==> ops[k] == ops[1..][k - 1];
  }

  lemma {:induction false} RealSnoc(ops: seq<Op>, i: nat)
    requires i < |ops|
    ensures Real(ops[..i + 1]) == Real(ops[..i]) + if ops[i].Nop? then [] else [ops[i]]
  {
    if i > 0 {
      RealSnoc(ops[1..], i - 1);
      assert ops[..i + 1][1..] == ops[1..][..i] && ops[..i][1..] == ops[1..][..i - 1];
    } else {
      assert ops[..1][1..] == [];
    }
  }
}
