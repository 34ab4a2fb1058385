/** assemble_code_blocks: the accessible blocks laid out one after the other, without jumps to the block that
    comes next, and with every target rewritten. Running the result shows what running the graph shows. */
module Layout {
  import opened Simulation
  import opened Machine
  import opened Cfgs
  import opened CfgEdit
  import opened JmpOptimization

  /** The block ends with a JMP to the accessible block that comes next. */
  predicate Stripped(cfg: Cfg, j: nat)
    requires j < |cfg|
  {
    Last(cfg[j]).Jmp? && cfg[j].op1To >= 0 && NextLive(cfg, j) == cfg[j].op1To
  }

  /** How many ops of block j are copied. */
  function Len(cfg: Cfg, j: nat): nat
    requires j < |cfg|
  {
    if !cfg[j].access then 0 else if Stripped(cfg, j) then |cfg[j].ops| - 1 else |cfg[j].ops|
  }

  function Addr(base: seq<nat>, to: int): nat { if 0 <= to < |base| then base[to] else 0 }

  /** The last op of a block, with the addresses of the blocks it leads to. */
  function Aimed(base: seq<nat>, blk: Block, op: Op): Op {
    match op
    case Jmp(_) => Jmp(Addr(base, blk.op1To))
    case CondJmp(nz, x, _) => CondJmp(nz, x, Addr(base, blk.op2To))
    case CondJmpEx(nz, x, _, r) => CondJmpEx(nz, x, Addr(base, blk.op2To), r)
    case JmpZnz(x, _, _) => JmpZnz(x, Addr(base, blk.op2To), Addr(base, blk.extTo))
    case _ => op
  }

  /** base[j] is where block j starts, for all j up to n. */
  ghost predicate BasedTo(cfg: Cfg, base: seq<nat>, n: nat) {
    && n <= |cfg| && |base| == n + 1 && base[0] == 0
    && forall i: nat, j: nat {:trigger base[i], base[j]} :: i < n && j == i + 1 ==> base[j] == base[i] + Len(cfg, i)
  }

  ghost predicate Based(cfg: Cfg, base: seq<nat>) { BasedTo(cfg, base, |cfg|) }

  /** Op i of block j stands at its address, aimed if it is the last op of one of the first m blocks. */
  ghost predicate OpAt(cfg: Cfg, base: seq<nat>, out: seq<Op>, j: nat, i: nat, m: nat)
    requires j < |cfg| && j < |base| && i < |cfg[j].ops|
  {
    && base[j] + i < |out|
    && out[base[j] + i] == if j < m && i == |cfg[j].ops| - 1 then Aimed(base, cfg[j], cfg[j].ops[i]) else cfg[j].ops[i]
  }

  /** The ops of the first n blocks stand at their addresses, the last op of the first m of them aimed. */
  ghost predicate Copied(cfg: Cfg, base: seq<nat>, out: seq<Op>, n: nat, m: nat) {
    n <= |cfg| && n <= |base| &&
    forall j: nat, i: nat {:trigger OpAt(cfg, base, out, j, i, m)} :: j < n && i < Len(cfg, j) ==>
      OpAt(cfg, base, out, j, i, m)
  }

  /** The code at these addresses is the graph's. */
  ghost predicate Laid(cfg: Cfg, base: seq<nat>, out: seq<Op>) {
    Based(cfg, base) && |out| == base[|cfg|] && Copied(cfg, base, out, |cfg|, |cfg|)
  }

  function Glued(out: seq<Op>, temps: nat): Code { Code(out, [], [], -1, temps) }

  // ---- addresses

  lemma {:induction false} BaseGrows(cfg: Cfg, base: seq<nat>, i: nat, j: nat)
    requires Based(cfg, base) && i <= j <= |cfg|
    ensures base[i] <= base[j]
    decreases j
  {
    if i < j {
      BaseGrows(cfg, base, i, j - 1);
      assert base[j] == base[j - 1] + Len(cfg, j - 1);
    }
  }

  /** Every address before block n belongs to an accessible block before it. */
  lemma {:induction false} BlockAt(cfg: Cfg, base: seq<nat>, m: nat, n: nat, p: nat) returns (j: nat)
    requires Based(cfg, base) && m <= n <= |cfg| && base[m] <= p < base[n]
    ensures m <= j < n && base[j] <= p < base[j] + Len(cfg, j)
    decreases n
  {
    assert m < n;
    assert base[n] == base[n - 1] + Len(cfg, n - 1);
    if p >= base[n - 1] {
      j := n - 1;
    } else {
      j := BlockAt(cfg, base, m, n - 1, p);
    }
  }

  /** Between these addresses there are only NOPs. */
  ghost predicate NopsFrom(out: seq<Op>, a: int, b: int) {
    0 <= a <= b <= |out| && forall p {:trigger out[p]} :: a <= p < b ==> out[p].Nop?
  }

  lemma NopsBetween(cfg: Cfg, base: seq<nat>, out: seq<Op>, x: nat, f: nat)
    requires Laid(cfg, base, out) && Falls(cfg, x, f)
    ensures NopsFrom(out, base[x + 1], base[f])
  {
    BaseGrows(cfg, base, x + 1, f);
    BaseGrows(cfg, base, f, |cfg|);
    forall p | base[x + 1] <= p < base[f] ensures out[p].Nop? {
      var j := BlockAt(cfg, base, x + 1, f, p);
      assert Live(cfg, j) && NopOnly(cfg[j]);
      assert OpAt(cfg, base, out, j, p - base[j], |cfg|) && cfg[j].ops[p - base[j]].Nop?;
    }
  }

  // ---- the simulation

  function At(base: seq<nat>, t: CState): int
    requires 0 <= t.b < |base|
  {
    base[t.b] + t.off
  }

  /** The code is at the address of the place in the graph, or at NOPs in front of it. */
  ghost predicate Placing(cfg: Cfg, base: seq<nat>, out: seq<Op>, s: State, t: CState) {
    && s.temps == t.temps && s.trace == t.trace && s.done == t.done
    && (!s.done ==> Live(cfg, t.b) && t.off < |cfg[t.b].ops| && t.b < |base| && NopsFrom(out, s.pc, At(base, t)))
  }

  ghost function LayoutRel(cfg: Cfg, base: seq<nat>, out: seq<Op>): (State, CState) -> bool {
    (s, t) => Placing(cfg, base, out, s, t)
  }

  /** The code walks over the NOPs. */
  lemma {:induction false} WalkNops(env: Env, out: seq<Op>, c: Code, s: State, a: int) returns (m: nat)
    requires !s.done && NopsFrom(out, s.pc, a) && c.ops == out
    ensures Run(Stepper(env, c), s, m) == s.(pc := a)
    decreases a - s.pc
  {
    if s.pc == a {
      m := 0;
    } else {
      assert c.ops[s.pc].Nop?;
      var u := s.(pc := s.pc + 1);
      assert Step(env, c, s) == u;
      var n := WalkNops(env, out, c, u, a);
      RunFrom(env, c, s, n, u.(pc := a));
      m := n + 1;
    }
  }

  ghost predicate AtJump(cfg: Cfg, t: CState) {
    Live(cfg, t.b) && Stripped(cfg, t.b) && t.off == |cfg[t.b].ops| - 1
  }

  /** A jump that has been stripped leads to the start of the next block, where nothing lies in between. */
  lemma JumpWalked(env: Env, cfg: Cfg, root: int, base: seq<nat>, t: CState) returns (v: CState)
    requires Wf(cfg, root) && Based(cfg, base) && !t.done && Live(cfg, t.b) && t.off < |cfg[t.b].ops| && AtJump(cfg, t)
    ensures v == CStep(env, cfg, t) && v == t.(b := v.b, off := v.off) && t.b < v.b
    ensures Live(cfg, v.b) && v.off < |cfg[v.b].ops| && At(base, v) == At(base, t)
  {
    v := CStep(env, cfg, t);
    var next := cfg[t.b].op1To;
    NextLiveIs(cfg, t.b);
    assert Shaped(cfg[next]);
    GapIsEmpty(cfg, base, t.b, next);
    assert base[t.b + 1] == base[t.b] + Len(cfg, t.b);
  }

  /** The graph makes the jumps that have been stripped; the address stays the same. */
  lemma {:induction false} WalkJumps(env: Env, cfg: Cfg, root: int, base: seq<nat>, t: CState) returns (k: nat,
          u: CState)
    requires Wf(cfg, root) && Based(cfg, base) && !t.done && Live(cfg, t.b) && t.off < |cfg[t.b].ops|
    ensures Run(CStepper(env, cfg), t, k) == u && u == t.(b := u.b, off := u.off)
    ensures Live(cfg, u.b) && u.off < |cfg[u.b].ops| && At(base, u) == At(base, t) && !AtJump(cfg, u)
    decreases |cfg| - t.b
  {
    if AtJump(cfg, t) {
      var v := JumpWalked(env, cfg, root, base, t);
      var n;
      n, u := WalkJumps(env, cfg, root, base, v);
      CRunFrom(env, cfg, t, n, u);
      k := n + 1;
    } else {
      k, u := 0, t;
    }
  }

  lemma CRunFrom(env: Env, cfg: Cfg, t: CState, k: nat, u: CState)
    requires u == Run(CStepper(env, cfg), CStep(env, cfg, t), k)
    ensures u == Run(CStepper(env, cfg), t, k + 1)
  {
    RunAdd(CStepper(env, cfg), t, 1, k);
    assert Run(CStepper(env, cfg), t, 1) == CStep(env, cfg, Run(CStepper(env, cfg), t, 0));
  }

  /** Nothing is laid out between block x and the next accessible one. */
  lemma {:induction false} GapIsEmpty(cfg: Cfg, base: seq<nat>, x: nat, y: nat)
    requires Based(cfg, base) && x < y <= |cfg| && forall j {:trigger Live(cfg, j)} :: x < j < y ==> !Live(cfg, j)
    ensures base[y] == base[x + 1]
    decreases y
  {
    if x + 1 < y {
      GapIsEmpty(cfg, base, x, y - 1);
      assert !Live(cfg, y - 1);
      assert base[y] == base[y - 1] + Len(cfg, y - 1);
    }
  }

  /** Where the code goes from an op. */
  function CodeWay(base: seq<nat>, blk: Block, br: Branch, pc: int): int {
    if br.ToOp1? then Addr(base, blk.op1To) else if br.ToOp2? then Addr(base, blk.op2To)
    else if br.ToExt? then Addr(base, blk.extTo) else pc + 1
  }

  /** An op does the same in the code and in the graph; only where it goes on is said differently. */
  lemma OpSteps(env: Env, base: seq<nat>, blk: Block, c: Code, op: Op, s: State)
    requires c.tryCatch == [] && !op.Brk? && !op.Cont? && !s.done
    ensures var (br, m, t) := Perform(env, op, s.temps, s.trace);
      var u := StepOp(env, c, Aimed(base, blk, op), s);
      && u.temps == m && u.trace == t && u.done == br.Stop? && (!u.done ==> u.pc == CodeWay(base, blk, br, s.pc))
  {
  }

  /** The op at the address of a place in the graph that is not a stripped jump. */
  lemma OpThere(cfg: Cfg, root: int, base: seq<nat>, out: seq<Op>, t: CState)
    requires Wf(cfg, root) && Laid(cfg, base, out) && Live(cfg, t.b) && t.off < |cfg[t.b].ops| && !AtJump(cfg, t)
    ensures t.off < Len(cfg, t.b) && 0 <= At(base, t) < |out|
    ensures out[At(base, t)] == Aimed(base, cfg[t.b], cfg[t.b].ops[t.off])
    ensures base[t.b + 1] == base[t.b] + Len(cfg, t.b)
  {
    assert Shaped(cfg[t.b]);
    assert t.off < |cfg[t.b].ops| - 1 ==> Plain(cfg[t.b].ops[t.off]);
    assert OpAt(cfg, base, out, t.b, t.off, |cfg|);
  }

  lemma LayoutStep(env: Env, cfg: Cfg, root: int, base: seq<nat>, out: seq<Op>, c: Code, s: State, t: CState)
    requires Wf(cfg, root) && Laid(cfg, base, out) && c.ops == out && c.tryCatch == []
    requires Placing(cfg, base, out, s, t) && !s.done && s.pc == At(base, t) && !AtJump(cfg, t)
    ensures Placing(cfg, base, out, Step(env, c, s), CStep(env, cfg, t))
  {
    var blk, u := cfg[t.b], CStep(env, cfg, t);
    var op := blk.ops[t.off];
    assert Shaped(blk);
    OpThere(cfg, root, base, out, t);
    OpSteps(env, base, blk, c, op, s);
    WayIsEdge(env, blk, t);
    if !u.done {
      if t.off < |blk.ops| - 1 {
        assert Plain(op);
        BaseGrows(cfg, base, t.b + 1, |cfg|);
      } else {
        assert Edge(blk, u.b) && u.off == 0;
        assert Live(cfg, u.b) && Shaped(cfg[u.b]);
        LastGoes(cfg, root, base, out, t.b, op, Perform(env, op, t.temps, t.trace).0, s.pc, u.b);
      }
    }
  }

  lemma LastGoes(cfg: Cfg, root: int, base: seq<nat>, out: seq<Op>, b: nat, op: Op, br: Branch, pc: int, y: int)
    requires Wf(cfg, root) && Laid(cfg, base, out) && Live(cfg, b) && pc + 1 == base[b + 1]
    requires y == Way(cfg[b], br) && Live(cfg, y) && !br.Stop?
    ensures NopsFrom(out, CodeWay(base, cfg[b], br, pc), base[y])
  {
    BaseGrows(cfg, base, y, |cfg|);
    if br.Fall? {
      assert Falls(cfg, b, y);
      NopsBetween(cfg, base, out, b, y);
    }
  }

  lemma LayoutPair(env: Env, cfg: Cfg, root: int, base: seq<nat>, out: seq<Op>, c: Code, s: State, t: CState)
    requires Wf(cfg, root) && Laid(cfg, base, out) && c.ops == out && c.tryCatch == []
    requires LayoutRel(cfg, base, out)(s, t)
    ensures PairReaches(Stepper(env, c), s, CStepper(env, cfg), t, LayoutRel(cfg, base, out))
  {
    if s.done {
      assert Run(Stepper(env, c), s, 1) == s && Run(CStepper(env, cfg), t, 1) == t;
    } else {
      var m := WalkNops(env, out, c, s, At(base, t));
      var k, u := WalkJumps(env, cfg, root, base, t);
      var r := s.(pc := At(base, t));
      OpThere(cfg, root, base, out, u);
      LayoutStep(env, cfg, root, base, out, c, r, u);
      PairOf(env, c, cfg, s, t, m, k, LayoutRel(cfg, base, out));
    }
  }

  lemma PairOf(env: Env, c: Code, cfg: Cfg, s: State, t: CState, m: nat, k: nat, R: (State, CState) -> bool)
    requires R(Step(env, c, Run(Stepper(env, c), s, m)), CStep(env, cfg, Run(CStepper(env, cfg), t, k)))
    ensures PairReaches(Stepper(env, c), s, CStepper(env, cfg), t, R)
  {
    RunNext(env, c, s, m, Run(Stepper(env, c), s, m));
    assert Run(CStepper(env, cfg), t, k + 1) == CStep(env, cfg, Run(CStepper(env, cfg), t, k));
  }

  lemma LayoutSees(cfg: Cfg, base: seq<nat>, out: seq<Op>)
    ensures forall s: State, t: CState {:trigger LayoutRel(cfg, base, out)(s, t)} ::
      LayoutRel(cfg, base, out)(s, t) ==> Observe()(s) == CObserve()(t)
  {
  }

  lemma LayoutSimulates(env: Env, cfg: Cfg, root: int, base: seq<nat>, out: seq<Op>, c: Code)
    requires Wf(cfg, root) && Laid(cfg, base, out) && c.ops == out && c.tryCatch == []
    ensures PairStep(Stepper(env, c), Observe(), CStepper(env, cfg), CObserve(), LayoutRel(cfg, base, out))
  {
    LayoutSees(cfg, base, out);
    forall s: State, t: CState | LayoutRel(cfg, base, out)(s, t)
      ensures PairReaches(Stepper(env, c), s, CStepper(env, cfg), t, LayoutRel(cfg, base, out))
    {
      LayoutPair(env, cfg, root, base, out, c, s, t);
    }
  }

  lemma {:induction false} BaseOfFirst(cfg: Cfg, base: seq<nat>, n: nat)
    requires Based(cfg, base) && n <= |cfg| && forall j {:trigger Live(cfg, j)} :: Live(cfg, j) ==> j >= n
    ensures base[n] == 0
  {
    if n > 0 {
      BaseOfFirst(cfg, base, n - 1);
      assert !Live(cfg, n - 1);
      assert base[n] == base[n - 1] + Len(cfg, n - 1);
    }
  }

  /** Running the code that was laid out shows what running the graph from its first block shows. */
  lemma LaidPreserves(env: Env, cfg: Cfg, root: int, base: seq<nat>, out: seq<Op>, temps: nat)
    requires Wf(cfg, root) && root == NextLive(cfg, -1) && Laid(cfg, base, out)
    ensures Runs(env, Glued(out, temps)) == CRuns(env, cfg, root)
  {
    var c := Glued(out, temps);
    LayoutSimulates(env, cfg, root, base, out, c);
    MachineLawful(env, c);
    CfgLawful(env, cfg);
    NextLiveIs(cfg, -1);
    assert Live(cfg, root) && Shaped(cfg[root]);
    BaseOfFirst(cfg, base, root);
    assert Placing(cfg, base, out, Init(), Enter(root));
    assert LayoutRel(cfg, base, out)(Init(), Enter(root));
    PairStepSound(Stepper(env, c), Observe(), CStepper(env, cfg), CObserve(), LayoutRel(cfg, base, out), Init(),
      Enter(root));
  }

  // ---- the length

  lemma {:induction false} NoLonger(cfg: Cfg, base: seq<nat>, n: nat)
    requires Based(cfg, base) && n <= |cfg|
    ensures base[n] <= Size(cfg, n)
  {
    if n > 0 {
      NoLonger(cfg, base, n - 1);
      assert base[n] == base[n - 1] + Len(cfg, n - 1);
    }
  }

  lemma {:induction false} SizeGrows(cfg: Cfg, i: nat, j: nat)
    requires i <= j <= |cfg|
    ensures Size(cfg, i) <= Size(cfg, j)
    decreases j
  {
    if i < j {
      SizeGrows(cfg, i, j - 1);
    }
  }

  // ---- how the code is built

  /** Block j once its JMP to the next block has been stripped. */
  function StripJump(cfg: Cfg, j: nat): Block
    requires j < |cfg|
  {
    if cfg[j].access && Stripped(cfg, j) then Fallen(cfg[j], cfg[j].op1To) else cfg[j]
  }

  /** Blocks before j have lost their JMP to the next block, the others have not yet. */
  ghost predicate StrippedTo(cfg: Cfg, cur: Cfg, j: nat) {
    && |cur| == |cfg|
    && forall x: nat {:trigger cur[x]} {:trigger cfg[x]} :: x < |cfg| ==> cur[x] == if x < j then StripJump(cfg, x)
          else cfg[x]
  }

  lemma {:induction false} NextLiveSame(a: Cfg, b: Cfg, j: int)
    requires j >= -1 && |a| == |b| && forall x {:trigger a[x]} {:trigger b[x]} :: 0 <= x < |a| ==>
      a[x].access == b[x].access
    ensures NextLive(a, j) == NextLive(b, j)
    decreases |a| - j
  {
    if j + 1 < |a| && !a[j + 1].access {
      NextLiveSame(a, b, j + 1);
    }
  }

  lemma CopyOneMore(cfg: Cfg, base: seq<nat>, was: seq<Op>, now: seq<Op>, j: nat)
    requires BasedTo(cfg, base, j) && j < |cfg| && Copied(cfg, base, was, j, 0) && base[j] <= |was| == |now|
    requires now[..base[j]] == was[..base[j]]
    requires cfg[j].access ==> base[j] + |cfg[j].ops| <= |now| && (now[base[j]..base[j] + |cfg[j].ops|] == cfg[j].ops)
    ensures BasedTo(cfg, base + [base[j] + Len(cfg, j)], j + 1)
    ensures Copied(cfg, base + [base[j] + Len(cfg, j)], now, j + 1, 0)
  {
    var next := base + [base[j] + Len(cfg, j)];
    forall x: nat, i: nat | x < j + 1 && i < Len(cfg, x) ensures OpAt(cfg, next, now, x, i, 0) {
      if x == j {
        assert now[base[j]..base[j] + |cfg[j].ops|][i] == cfg[j].ops[i];
      } else {
        PrefixGrows(cfg, base, j, x + 1, j);
        assert base[x + 1] == base[x] + Len(cfg, x);
        assert OpAt(cfg, base, was, x, i, 0);
        assert now[..base[j]][base[x] + i] == was[..base[j]][base[x] + i];
      }
    }
  }

  lemma {:induction false} PrefixGrows(cfg: Cfg, base: seq<nat>, n: nat, i: nat, j: nat)
    requires BasedTo(cfg, base, n) && i <= j <= n
    ensures base[i] <= base[j]
    decreases j
  {
    if i < j {
      PrefixGrows(cfg, base, n, i, j - 1);
      assert base[j] == base[j - 1] + Len(cfg, j - 1);
    }
  }

  /** One turn of the second loop. */
  lemma AimOneMore(cfg: Cfg, base: seq<nat>, out: seq<Op>, j: nat, at: int)
    requires Based(cfg, base) && j < |cfg| && Copied(cfg, base, out, |cfg|, j)
    requires cfg[j].access && !Stripped(cfg, j) && |cfg[j].ops| > 0 && at == base[j] + |cfg[j].ops| - 1
    ensures 0 <= at < |out| && out[at] == Last(cfg[j])
    ensures Copied(cfg, base, out[at := Aimed(base, cfg[j], out[at])], |cfg|, j + 1)
  {
    var n, m := |cfg[j].ops| - 1, j + 1;
    assert OpAt(cfg, base, out, j, n, j);
    var now := out[at := Aimed(base, cfg[j], out[at])];
    forall x: nat, i: nat | x < |cfg| && i < Len(cfg, x) ensures OpAt(cfg, base, now, x, i, m) {
      assert OpAt(cfg, base, out, x, i, j);
      if x < j {
        BaseGrows(cfg, base, x + 1, j);
        assert base[x + 1] == base[x] + Len(cfg, x);
      } else if x > j {
        BaseGrows(cfg, base, j + 1, x);
        assert base[j + 1] == base[j] + Len(cfg, j);
      }
    }
  }

  /** A block that lost its jump, or was never copied, needs no aiming. */
  lemma AimNone(cfg: Cfg, base: seq<nat>, out: seq<Op>, j: nat)
    requires Based(cfg, base) && j < |cfg| && Copied(cfg, base, out, |cfg|, j) && (Len(cfg, j) == 0 || Stripped(cfg, j))
    ensures Copied(cfg, base, out, |cfg|, j + 1)
  {
    var m := j + 1;
    forall x: nat, i: nat | x < |cfg| && i < Len(cfg, x) ensures OpAt(cfg, base, out, x, i, m) {
      assert OpAt(cfg, base, out, x, i, j);
    }
  }
}
