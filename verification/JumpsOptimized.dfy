/** What a call of zend_jmp_optimization achieves: which jump becomes what, case by case, and that no case is left out.
    (That each of these changes no run is proved with the rewritings themselves.) */
module JumpsOptimized {
  import opened Machine
  import opened Cfgs
  import opened CfgEdit
  import opened Redirects
  import opened JmpOptimization

  // ---- what control meets

  /** The first op of blk that is not a NOP is h. */
  ghost predicate Meets(blk: Block, h: Op) {
    !h.Nop? && exists k :: 0 <= k < |blk.ops| && blk.ops[k] == h && forall i :: 0 <= i < k ==> blk.ops[i].Nop?
  }

  /** Blocks of NOPs lead from block y to block t, which has something else. */
  ghost predicate ComesTo(cfg: Cfg, y: int, t: int)
    decreases |cfg| - y
  {
    Live(cfg, y) && if !NopOnly(cfg[y]) then t == y else y < cfg[y].followTo && ComesTo(cfg, cfg[y].followTo, t)
  }

  /** Block t comes next in the list. */
  ghost predicate IsNext(cfg: Cfg, b: nat, t: int) {
    b < t && Live(cfg, t) && forall j {:trigger Live(cfg, j)} :: b < j < t ==> !Live(cfg, j)
  }

  lemma MeetsHead(blk: Block, h: Op)
    requires Meets(blk, h)
    ensures Head(blk) == h && !NopOnly(blk)
  {
    var k :| 0 <= k < |blk.ops| && blk.ops[k] == h && forall i :: 0 <= i < k ==> blk.ops[i].Nop?;
    assert FirstReal(blk.ops) == k;
  }

  lemma {:induction false} ComesToPast(cfg: Cfg, root: int, y: int, t: int)
    requires Wf(cfg, root) && ComesTo(cfg, y, t)
    ensures Past(cfg, y) == t && Live(cfg, t)
    decreases |cfg| - y
  {
    if NopOnly(cfg[y]) {
      ComesToPast(cfg, root, cfg[y].followTo, t);
    } else {
      assert Past(cfg, y) == y;
    }
  }

  lemma NextIs(cfg: Cfg, b: nat, t: int)
    ensures IsNext(cfg, b, t) <==> t >= 0 && NextLive(cfg, b) == t
  {
    NextLiveIs(cfg, b);
  }

  /** Block b afterwards. */
  ghost predicate Became(r: Cfg, b: nat, ops: seq<Op>, op1To: int, op2To: int, extTo: int, followTo: int) {
    && Live(r, b) && r[b].ops == ops
    && (r[b].op1To, r[b].op2To, r[b].extTo, r[b].followTo) == (op1To, op2To, extTo, followTo)
  }

  function AllButLast(blk: Block): seq<Op> { if blk.ops == [] then [] else blk.ops[..|blk.ops| - 1] }

  lemma LeadBecomes(env: Env, cfg: Cfg, root: int, b: nat, w: Rewriting, r: Cfg)
    requires Good(env, cfg, root, b, w) && w.Lead? && |cfg[b].ops| > 0 && w.y < |cfg| && r == Apply(cfg, b, w)
    ensures Became(r, b, w.blk.ops, w.blk.op1To, w.blk.op2To, w.blk.extTo, w.blk.followTo)
  {
    LeadKeepsBlock(env, cfg, root, b, w);
  }

  // ---- JMP

  /** What a JMP to block t takes over: another JMP or a JMPZNZ, if t is not the start of a try block, or a RETURN. */
  predicate TakesOver(to: Block, t: int) {
    |to.ops| > 0 && (to.ops[0].Return?
                     || (!to.protected && (to.ops[0].JmpZnz? || (to.ops[0].Jmp? && to.op1To != t))))
  }

  /** A JMP to the next block goes, with its block if that has nothing else; one to a block that begins with a jump or
      RETURN becomes that op; any other stays. */
  lemma JumpAchieves(env: Env, cfg: Cfg, root: int, b: nat, t: int, r: Cfg)
    requires Wf(cfg, root) && Live(cfg, b) && Last(cfg[b]).Jmp? && cfg[b].op1To == t && Tame(cfg, root, b)
    requires r == JmpOptimize(cfg, b)
    ensures Live(cfg, t)
    ensures IsNext(cfg, b, t) ==>
              if |cfg[b].ops| == 1 then !Live(r, b) else Became(r, b, AllButLast(cfg[b]), -1, -1, -1, t)
    ensures !IsNext(cfg, b, t) ==>
              if !TakesOver(cfg[t], t) then r == cfg
              else Became(r, b, AllButLast(cfg[b]) + [cfg[t].ops[0]], cfg[t].op1To, cfg[t].op2To, cfg[t].extTo, -1)
  {
    LastIsReal(cfg, root, b);
    LedTo(cfg, root, b, t);
    NextIs(cfg, b, t);
    JumpGood(env, cfg, root, b);
    var w := JumpRewriting(cfg, b);
    assert Shaped(cfg[t]);
    if w.Lead? {
      LeadBecomes(env, cfg, root, b, w, r);
    } else if w.DropJump? && |cfg[b].ops| == 1 {
      JumpIsDropped(env, cfg, root, b, t, r);
    }
  }

  lemma JumpIsDropped(env: Env, cfg: Cfg, root: int, b: nat, t: nat, r: Cfg)
    requires Good(env, cfg, root, b, DropJump(t)) && |cfg[b].ops| == 1 && r == Apply(cfg, b, DropJump(t))
    ensures !Live(r, b)
  {
  }

  // ---- JMPZ and JMPNZ

  /** A branch on a constant keeps only the way that is taken. */
  lemma ConstAchieves(env: Env, cfg: Cfg, root: int, b: nat, op: Op, r: Cfg)
    requires Wf(cfg, root) && Live(cfg, b) && op == Last(cfg[b]) && op.CondJmp? && op.cond.Const?
    requires Tame(cfg, root, b) && r == JmpOptimize(cfg, b)
    ensures if Truthy(op.cond.v) == op.nz
            then Became(r, b, AllButLast(cfg[b]) + [Jmp(op.target)], cfg[b].op2To, -1, -1, -1)
            else Became(r, b, AllButLast(cfg[b]) + [Nop], -1, -1, -1, cfg[b].followTo)
  {
    LastIsReal(cfg, root, b);
    LedTo(cfg, root, b, cfg[b].op2To);
    LedTo(cfg, root, b, cfg[b].followTo);
    ConstSensible(env, cfg, root, b);
    LeadBecomes(env, cfg, root, b, ConstRewriting(cfg, b), r);
  }

  /** When op has jumped, it is known where h goes: h is a JMP, or tests the same temporary or compiled variable. */
  predicate Decides(op: Op, h: Op)
    requires op.CondJmp?
  {
    h.Jmp? || ((h.CondJmp? || h.JmpZnz?) && (op.cond.Tmp? || op.cond.Cv?) && h.cond == op.cond)
  }

  /** Where the jump of a branch at the end of blk is led; t is the block that meets it with the op h. */
  function LedAhead(op: Op, blk: Block, t: Block, h: Op): int
    requires op.CondJmp?
  {
    if t.protected || !Decides(op, h) then blk.op2To
    else if h.Jmp? then t.op1To
    else if h.JmpZnz? then (if op.nz then t.extTo else t.op2To)
    else if h.nz == op.nz then t.op2To else t.followTo
  }

  lemma AheadIsLed(op: Op, blk: Block, t: Block, h: Op)
    requires op.CondJmp? && Shaped(t) && h == Head(t) && h == Last(t)
    ensures LedAhead(op, blk, t, h) == if Ahead(op, t) >= 0 then Ahead(op, t) else blk.op2To
  {
  }

  lemma PlainLeadsNowhere(op: Op, blk: Block, t: Block, h: Op)
    requires op.CondJmp? && h == Head(t) && Plain(h)
    ensures LedAhead(op, blk, t, h) == blk.op2To && Ahead(op, t) == -1
  {
  }

  /** Block t, met with the op h by the jump of block b. */
  ghost predicate MetWith(cfg: Cfg, b: nat, t: int, h: Op) {
    b < |cfg| && ComesTo(cfg, cfg[b].op2To, t) && Live(cfg, t) && Meets(cfg[t], h)
  }

  lemma MetIs(cfg: Cfg, root: int, b: nat, t: int, h: Op)
    requires Wf(cfg, root) && Live(cfg, b) && Edge(cfg[b], cfg[b].op2To) && MetWith(cfg, b, t, h)
    ensures Past(cfg, cfg[b].op2To) == t && 0 <= t < |cfg| && 0 <= cfg[b].op2To < |cfg|
    ensures h == Head(cfg[t]) && Shaped(cfg[t]) && (Plain(h) || h == Last(cfg[t]))
  {
    ComesToPast(cfg, root, cfg[b].op2To, t);
    AheadIs(cfg, root, b, cfg[b].op2To);
    MeetsHead(cfg[t], h);
  }

  lemma ThreadIs(cfg: Cfg, root: int, b: nat, t: int, h: Op, w: Rewriting)
    requires Wf(cfg, root) && Live(cfg, b) && Last(cfg[b]).CondJmp? && MetWith(cfg, b, t, h)
    requires w == ThreadRewriting(cfg, b)
    ensures (if w.Lead? then w.blk.op2To else cfg[b].op2To) == LedAhead(Last(cfg[b]), cfg[b], cfg[t], h)
    ensures w.Lead? ==> w.blk == cfg[b].(op2To := w.blk.op2To)
  {
    LastIsReal(cfg, root, b);
    MetIs(cfg, root, b, t, h);
    if Plain(h) {
      PlainLeadsNowhere(Last(cfg[b]), cfg[b], cfg[t], h);
    } else {
      AheadIsLed(Last(cfg[b]), cfg[b], cfg[t], h);
    }
  }

  lemma ThreadAchieves(env: Env, cfg: Cfg, root: int, b: nat, t: int, h: Op, q: Cfg)
    requires Wf(cfg, root) && Live(cfg, b) && Last(cfg[b]).CondJmp? && !Last(cfg[b]).cond.Const?
    requires Tame(cfg, root, b) && MetWith(cfg, b, t, h)
    requires q == Threaded(cfg, b)
    ensures Wf(q, root) && Live(q, b) && q[b].ops == cfg[b].ops && SteadyFollow(q, root, b)
    ensures q[b].op2To == LedAhead(Last(cfg[b]), cfg[b], cfg[t], h)
  {
    LastIsReal(cfg, root, b);
    SafeStays(cfg, root, b);
    ThreadIs(cfg, root, b, t, h, ThreadRewriting(cfg, b));
    ThreadPreserves(env, cfg, root, b);
    ThreadGood(env, cfg, root, b);
    var w := ThreadRewriting(cfg, b);
    if w.Lead? {
      LeadBecomes(env, cfg, root, b, w, Apply(cfg, b, w));
    }
  }

  lemma {:induction false} SkipEnds(cfg: Cfg, b: nat)
    requires b < |cfg| && Last(cfg[b]).CondJmp?
    ensures Last(SkipAll(cfg, b)[b]).CondJmp? && SkipRewriting(SkipAll(cfg, b), b).Leave?
    decreases |cfg| - cfg[b].followTo
  {
    var w := SkipRewriting(cfg, b);
    if w.Lead? {
      SkipCode(cfg, b);
      SkipEnds(Apply(cfg, b, w), b);
    }
  }

  /** A block that block b may fall to: not only NOPs, and no JMP that could be taken in. */
  ghost predicate NothingToTakeIn(r: Cfg, y: int) {
    && Live(r, y) && !NopOnly(r[y])
    && forall h {:trigger Meets(r[y], h)} :: Meets(r[y], h) && h.Jmp? ==> r[y].protected
  }

  /** Block b ends with the branch op as it was, jumping to block way, and falls to a block that begins with something
      to do; or it has taken in the JMP there, and is a JMPZNZ now, with that way if op would jump. */
  ghost predicate BranchDone(r: Cfg, b: nat, front: seq<Op>, op: Op, way: int)
    requires op.CondJmp?
  {
    Live(r, b) &&
    if r[b].ops == front + [op] then r[b].op2To == way && NothingToTakeIn(r, r[b].followTo)
    else r[b].ops == front + [JmpZnz(op.cond, op.target, op.target)] && r[b].followTo == -1
         && way == if op.nz then r[b].extTo else r[b].op2To
  }

  /** A branch on a variable: its jump is led ahead past what it decides, as far as one op, and the block it falls to is
      looked at. */
  lemma BranchAchieves(env: Env, cfg: Cfg, root: int, b: nat, op: Op, t: int, h: Op, r: Cfg)
    requires Wf(cfg, root) && Live(cfg, b) && op == Last(cfg[b]) && op.CondJmp? && !op.cond.Const?
    requires Tame(cfg, root, b) && MetWith(cfg, b, t, h)
    requires r == JmpOptimize(cfg, b)
    ensures BranchDone(r, b, AllButLast(cfg[b]), op, LedAhead(op, cfg[b], cfg[t], h))
  {
    LastIsReal(cfg, root, b);
    var q := Threaded(cfg, b);
    ThreadAchieves(env, cfg, root, b, t, h, q);
    SafeStays(cfg, root, b);
    FollowAchieves(env, q, root, b, FuseNext(SkipAll(q, b), b));
  }

  lemma FollowAchieves(env: Env, q: Cfg, root: int, b: nat, r: Cfg)
    requires Wf(q, root) && Live(q, b) && Last(q[b]).CondJmp? && |q[b].ops| > 0 && SteadyFollow(q, root, b)
    requires r == FuseNext(SkipAll(q, b), b)
    ensures BranchDone(r, b, AllButLast(q[b]), Last(q[b]), q[b].op2To)
  {
    SkipAllPreserves(env, q, root, b);
    SkipEnds(q, b);
    FuseAchieves(env, SkipAll(q, b), root, b, r);
  }

  lemma FuseAchieves(env: Env, p: Cfg, root: int, b: nat, r: Cfg)
    requires Wf(p, root) && Live(p, b) && Last(p[b]).CondJmp? && |p[b].ops| > 0 && SkipRewriting(p, b).Leave?
    requires Safe(p, root, b, FuseRewriting(p, b)) && r == FuseNext(p, b)
    ensures BranchDone(r, b, AllButLast(p[b]), Last(p[b]), p[b].op2To)
  {
    LastIsReal(p, root, b);
    FuseGood(env, p, root, b);
    var w, y := FuseRewriting(p, b), p[b].followTo;
    assert p[b].ops == AllButLast(p[b]) + [Last(p[b])];
    if w.Lead? {
      LeadBecomes(env, p, root, b, w, r);
      assert r[b].ops[|p[b].ops| - 1].JmpZnz?;
    } else {
      LedTo(p, root, b, y);
      AheadIs(p, root, b, y);
      assert Falls(p, y, p[y].followTo) || !NopOnly(p[y]);
      forall h {:trigger Meets(p[y], h)} | Meets(p[y], h) && h.Jmp? ensures p[y].protected {
        MeetsHead(p[y], h);
        assert Shaped(p[y]);
      }
    }
  }

  // ---- JMPZNZ

  /** The way on zero meets h, and it is known where h goes: a JMP, or a test of a variable of the same kind whose
      number is the same in one byte. */
  predicate DecidesZero(op: Op, h: Op)
    requires op.JmpZnz?
  {
    h.Jmp? || ((h.CondJmp? || h.JmpZnz?) && ((op.cond.Tmp? && h.cond.Tmp?) || (op.cond.Cv? && h.cond.Cv?))
               && h.cond.n == op.cond.n % 256)
  }

  /** Where the way on zero of a JMPZNZ at the end of blk is led; t is the block that meets it with the op h. */
  function LedOnZero(op: Op, blk: Block, t: Block, h: Op): int
    requires op.JmpZnz?
  {
    if t.protected || !DecidesZero(op, h) then blk.op2To
    else if h.Jmp? then t.op1To
    else if h.CondJmp? && h.nz then t.followTo
    else t.op2To
  }

  lemma ZeroIsLed(op: Op, blk: Block, t: Block, h: Op)
    requires op.JmpZnz? && Shaped(t) && h == Head(t) && h == Last(t)
    ensures LedOnZero(op, blk, t, h) == if AheadOnZero(op, t) >= 0 then AheadOnZero(op, t) else blk.op2To
  {
  }

  lemma PlainLeadsNoZero(op: Op, blk: Block, t: Block, h: Op)
    requires op.JmpZnz? && h == Head(t) && Plain(h)
    ensures LedOnZero(op, blk, t, h) == blk.op2To && AheadOnZero(op, t) == -1
  {
  }

  lemma ZeroIs(cfg: Cfg, root: int, b: nat, t: int, h: Op, w: Rewriting)
    requires Wf(cfg, root) && Live(cfg, b) && Last(cfg[b]).JmpZnz? && MetWith(cfg, b, t, h)
    requires w == ZeroRewriting(cfg, b)
    ensures (if w.Lead? then w.blk.op2To else cfg[b].op2To) == LedOnZero(Last(cfg[b]), cfg[b], cfg[t], h)
    ensures if w.Lead? then w.blk == cfg[b].(op2To := w.blk.op2To) else w.Leave?
  {
    LastIsReal(cfg, root, b);
    MetIs(cfg, root, b, t, h);
    if Plain(h) {
      PlainLeadsNoZero(Last(cfg[b]), cfg[b], cfg[t], h);
    } else {
      ZeroIsLed(Last(cfg[b]), cfg[b], cfg[t], h);
    }
  }

  /** A JMPZNZ on a constant keeps only the way that is taken; one with both ways the same is a JMP. */
  lemma ZnzSettled(env: Env, cfg: Cfg, root: int, b: nat, op: Op, r: Cfg)
    requires Wf(cfg, root) && Live(cfg, b) && op == Last(cfg[b]) && op.JmpZnz? && Tame(cfg, root, b)
    requires op.cond.Const? || cfg[b].op2To == cfg[b].extTo
    requires r == JmpOptimize(cfg, b)
    ensures var to := if op.cond.Const? && Truthy(op.cond.v) then cfg[b].extTo else cfg[b].op2To;
      Became(r, b, AllButLast(cfg[b]) + [Jmp(op.onZero)], to, -1, -1, -1)
  {
    LastIsReal(cfg, root, b);
    LedTo(cfg, root, b, cfg[b].op2To);
    LedTo(cfg, root, b, cfg[b].extTo);
    var w := SplitRewriting(cfg, b);
    SplitGood(env, cfg, root, b);
    if w.Lead? {
      LeadBecomes(env, cfg, root, b, w, Apply(cfg, b, w));
    }
    assert !Last(Apply(cfg, b, w)[b]).JmpZnz?;
  }

  /** Any other: with a way to the next block it becomes the branch to the other; otherwise its way on zero is led
      ahead. */
  lemma ZnzAchieves(env: Env, cfg: Cfg, root: int, b: nat, op: Op, t: int, h: Op, r: Cfg)
    requires Wf(cfg, root) && Live(cfg, b) && op == Last(cfg[b]) && op.JmpZnz? && Tame(cfg, root, b)
    requires !op.cond.Const? && cfg[b].op2To != cfg[b].extTo && r == JmpOptimize(cfg, b)
    requires MetWith(cfg, b, t, h)
    ensures var (blk, front) := (cfg[b], AllButLast(cfg[b]));
      if IsNext(cfg, b, blk.op2To)
      then Became(r, b, front + [CondJmp(true, op.cond, op.onZero)], -1, blk.extTo, -1, blk.op2To)
      else if IsNext(cfg, b, blk.extTo)
      then Became(r, b, front + [CondJmp(false, op.cond, op.onZero)], -1, blk.op2To, -1, blk.extTo)
      else Became(r, b, blk.ops, -1, LedOnZero(op, blk, cfg[t], h), blk.extTo, -1)
  {
    LastIsReal(cfg, root, b);
    LedTo(cfg, root, b, cfg[b].op2To);
    LedTo(cfg, root, b, cfg[b].extTo);
    NextIs(cfg, b, cfg[b].op2To);
    NextIs(cfg, b, cfg[b].extTo);
    if SplitRewriting(cfg, b).Leave? {
      ZeroAchieves(env, cfg, root, b, t, h, r);
    } else {
      assert !Last(Apply(cfg, b, SplitRewriting(cfg, b))[b]).JmpZnz?;
    }
  }

  lemma ZeroAchieves(env: Env, cfg: Cfg, root: int, b: nat, t: int, h: Op, r: Cfg)
    requires Wf(cfg, root) && Live(cfg, b) && Last(cfg[b]).JmpZnz? && NoMistake(cfg, b)
    requires Safe(cfg, root, b, ZeroRewriting(cfg, b)) && r == ZeroNext(cfg, b)
    requires MetWith(cfg, b, t, h)
    ensures Became(r, b, cfg[b].ops, -1, LedOnZero(Last(cfg[b]), cfg[b], cfg[t], h), cfg[b].extTo, -1)
  {
    LastIsReal(cfg, root, b);
    ZeroIs(cfg, root, b, t, h, ZeroRewriting(cfg, b));
    ZeroGood(env, cfg, root, b);
    if ZeroRewriting(cfg, b).Lead? {
      LeadBecomes(env, cfg, root, b, ZeroRewriting(cfg, b), r);
    }
  }
}
