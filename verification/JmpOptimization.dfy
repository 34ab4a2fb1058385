/** zend_jmp_optimization: how the jump at the end of a block is rewritten, and that runs do not change. */
module JmpOptimization {
  import opened Machine
  import opened Cfgs
  import opened CfgEdit
  import opened Redirects
  import opened BlockDeletion

  // ---- looking ahead

  /** The first accessible block after b in list order, -1 if there is none. */
  function NextLive(cfg: Cfg, b: int): (r: int)
    requires b >= -1
    decreases |cfg| - b
  {
    if b + 1 >= |cfg| then -1
    else if cfg[b + 1].access then b + 1
    else NextLive(cfg, b + 1)
  }

  lemma {:induction false} NextLiveIs(cfg: Cfg, b: int)
    requires b >= -1
    ensures var r := NextLive(cfg, b);
      && (r == -1 || (b < r && Live(cfg, r)))
      && (forall j {:trigger Live(cfg, j)} :: b < j && (r == -1 || j < r) ==> !Live(cfg, j))
    decreases |cfg| - b
  {
    if b + 1 < |cfg| && !cfg[b + 1].access {
      NextLiveIs(cfg, b + 1);
    }
  }

  /** Index of the first op that is not a NOP. */
  function FirstReal(ops: seq<Op>): (k: nat)
    ensures k <= |ops| && (k < |ops| ==> !ops[k].Nop?) && forall i {:trigger ops[i]} :: 0 <= i < k ==> ops[i].Nop?
  {
    if ops != [] && ops[0].Nop? then 1 + FirstReal(ops[1..]) else 0
  }

  /** The block where control entering block t meets its first op that is not a NOP. */
  function Past(cfg: Cfg, t: int): int
    decreases |cfg| - t
  {
    if 0 <= t < |cfg| && NopOnly(cfg[t]) && t < cfg[t].followTo then Past(cfg, cfg[t].followTo) else t
  }

  /** The op a jump to a block meets there; a NOP if it has nothing else. */
  function Head(blk: Block): Op {
    var k := FirstReal(blk.ops);
    if k < |blk.ops| then blk.ops[k] else Nop
  }

  function Last(blk: Block): Op { if |blk.ops| > 0 then blk.ops[|blk.ops| - 1] else Nop }

  /** The ops of blk, ending with op instead. */
  function WithLast(blk: Block, op: Op): (r: seq<Op>)
    requires |blk.ops| > 0
  {
    blk.ops[..|blk.ops| - 1] + [op]
  }

  /** A temporary or compiled variable, and the same one. */
  predicate SameVar(x: Operand, y: Operand) { (y.Tmp? || y.Cv?) && x == y }

  /** The same test as JMPZNZ makes it, with the first number cut to one byte. */
  predicate SameVarByte(x: Operand, y: Operand) {
    (x.Tmp? && y.Tmp? && x.n % 256 == y.n) || (x.Cv? && y.Cv? && x.n % 256 == y.n)
  }

  // ---- what is rewritten

  datatype Rewriting =
    | Leave
    | Recode(blk: Block)                     // new code for the same successors
    | Lead(y: nat, blk: Block, add: Block)   // new code, after del_source on y and before ADD_SOURCE where add leads
    | DropJump(to: nat)                      // the jump goes, and what is left falls through to block to

  /** No ADD_SOURCE */
  const NOWHERE: Block := Led(-1, -1, -1, -1)

  function Fallen(blk: Block, to: int): Block
    requires |blk.ops| > 0
  {
    blk.(ops := blk.ops[..|blk.ops| - 1], op1To := -1, followTo := to)
  }

  function Apply(cfg: Cfg, b: nat, w: Rewriting): (r: Cfg)
    requires b < |cfg| && |cfg[b].ops| > 0 && (w.Lead? ==> w.y < |cfg|)
    ensures |r| == |cfg|
  {
    match w
    case Leave => cfg
    case Recode(blk) => SetCode(cfg, b, blk)
    case Lead(y, blk, add) => Redirect(cfg, b, y, blk, add)
    case DropJump(to) =>
      var r := SetCode(cfg, b, Fallen(cfg[b], to));
      if |cfg[b].ops| == 1 then DeleteBlock(r, b, to) else r
  }

  /** JMP */
  function JumpRewriting(cfg: Cfg, b: nat): (w: Rewriting)
    requires b < |cfg| && Last(cfg[b]).Jmp? && 0 <= cfg[b].op1To < |cfg|
    ensures w.Lead? ==> w.y < |cfg| && |w.blk.ops| == |cfg[b].ops|
  {
    var blk, t := cfg[b], cfg[b].op1To;
    var to := cfg[t];
    if t == NextLive(cfg, b) then DropJump(t)
    else if |to.ops| == 0 then Leave
    else if ((to.ops[0].Jmp? && to.op1To != t) || to.ops[0].JmpZnz?) && !to.protected then
      Lead(t, blk.(ops := WithLast(blk, to.ops[0]), op1To := to.op1To, op2To := to.op2To, extTo := to.extTo),
           Led(to.op1To, to.op2To, to.extTo, -1))
    else if to.ops[0].Return? then Lead(t, blk.(ops := WithLast(blk, to.ops[0]), op1To := -1), NOWHERE)
    else Leave
  }

  /** JMPZ and JMPNZ on a constant */
  function ConstRewriting(cfg: Cfg, b: nat): (w: Rewriting)
    requires b < |cfg| && Last(cfg[b]).CondJmp? && Last(cfg[b]).cond.Const?
    requires 0 <= cfg[b].op2To < |cfg| && 0 <= cfg[b].followTo < |cfg|
    ensures w.Lead? && w.y < |cfg| && |w.blk.ops| == |cfg[b].ops|
  {
    var blk, op := cfg[b], Last(cfg[b]);
    if Truthy(op.cond.v) == op.nz then
      Lead(blk.followTo, blk.(ops := WithLast(blk, Jmp(op.target)), op1To := blk.op2To, op2To := -1, followTo := -1),
        NOWHERE)
    else
      Lead(blk.op2To, blk.(ops := WithLast(blk, Nop), op2To := -1), NOWHERE)
  }

  /** Where a JMPZ or JMPNZ leading to block t may lead instead; -1 if nowhere else. */
  function Ahead(op: Op, t: Block): int
    requires op.CondJmp?
  {
    var h := Head(t);
    if t.protected then -1
    else if h.CondJmp? && h.nz != op.nz && SameVar(op.cond, h.cond) && t.followTo >= 0 then t.followTo
    else if h.CondJmp? && h.nz == op.nz && SameVar(op.cond, h.cond) && t.op2To >= 0 then t.op2To
    else if h.Jmp? && t.op1To >= 0 then t.op1To
    else if h.JmpZnz? && SameVar(op.cond, h.cond) && t.op2To >= 0
      && t.extTo >= 0 then (if op.nz then t.extTo else t.op2To)
    else -1
  }

  function ThreadRewriting(cfg: Cfg, b: nat): (w: Rewriting)
    requires b < |cfg| && Last(cfg[b]).CondJmp?
    ensures w.Lead? ==> w.y < |cfg| && |w.blk.ops| == |cfg[b].ops|
  {
    var t := Past(cfg, cfg[b].op2To);
    var e := if 0 <= t < |cfg| then Ahead(Last(cfg[b]), cfg[t]) else -1;
    if e >= 0 && 0 <= cfg[b].op2To < |cfg| then Lead(cfg[b].op2To, cfg[b].(op2To := e), Led(-1, e, -1, -1)) else Leave
  }

  /** The block b falls to has nothing but NOPs: fall to the one after it. */
  function SkipRewriting(cfg: Cfg, b: nat): (w: Rewriting)
    requires b < |cfg|
    ensures w.Lead? ==> w.y < |cfg| && |w.blk.ops| == |cfg[b].ops|
  {
    var y := cfg[b].followTo;
    if 0 <= y < |cfg| && NopOnly(cfg[y]) && y < cfg[y].followTo then
      Lead(y, cfg[b].(followTo := cfg[y].followTo), Led(-1, -1, -1, cfg[y].followTo))
    else Leave
  }

  /** JMPZ(X,L1), JMP(L2) -> JMPZNZ(X,L1,L2) */
  function FuseRewriting(cfg: Cfg, b: nat): (w: Rewriting)
    requires b < |cfg| && Last(cfg[b]).CondJmp?
    ensures w.Lead? ==> w.y < |cfg| && |w.blk.ops| == |cfg[b].ops|
  {
    var blk, y, op := cfg[b], cfg[b].followTo, Last(cfg[b]);
    if !(0 <= y < |cfg|) || !Head(cfg[y]).Jmp? || cfg[y].op1To < 0 || cfg[y].protected then Leave
    else
      var znz := WithLast(blk, JmpZnz(op.cond, op.target, op.target));
      if op.nz then
        Lead(y, blk.(ops := znz, op2To := cfg[y].op1To, extTo := blk.op2To, followTo := -1),
          Led(-1, cfg[y].op1To, -1, -1))
      else
        Lead(y, blk.(ops := znz, extTo := cfg[y].op1To, followTo := -1), Led(-1, -1, cfg[y].op1To, -1))
  }

  /** JMPZNZ on a constant, with both ways the same, or with one way to the next block */
  function SplitRewriting(cfg: Cfg, b: nat): (w: Rewriting)
    requires b < |cfg| && Last(cfg[b]).JmpZnz? && 0 <= cfg[b].op2To < |cfg| && 0 <= cfg[b].extTo < |cfg|
    ensures w.Recode? ==> |w.blk.ops| == |cfg[b].ops|
    ensures w.Lead? ==> w.y < |cfg| && |w.blk.ops| == |cfg[b].ops|
  {
    var blk, op, next := cfg[b], Last(cfg[b]), NextLive(cfg, b);
    if op.cond.Const? then
      if Truthy(op.cond.v) then
        Lead(blk.op2To, blk.(ops := WithLast(blk, Jmp(op.onZero)), op1To := blk.extTo, op2To := -1, extTo := -1),
          NOWHERE)
      else
        Lead(blk.extTo, blk.(ops := WithLast(blk, Jmp(op.onZero)), op1To := blk.op2To, op2To := -1, extTo := -1),
          NOWHERE)
    else if blk.op2To == blk.extTo then
      Recode(blk.(ops := WithLast(blk, Jmp(op.onZero)), op1To := blk.op2To, op2To := -1, extTo := -1))
    else if blk.op2To == next then
      Recode(blk.(ops := WithLast(blk, CondJmp(true, op.cond, op.onZero)), op2To := blk.extTo, extTo := -1,
        followTo := next))
    else if blk.extTo == next then
      Recode(blk.(ops := WithLast(blk, CondJmp(false, op.cond, op.onZero)), extTo := -1, followTo := next))
    else Leave
  }

  /** Where a JMPZNZ leading on zero to block t may lead instead. */
  function AheadOnZero(op: Op, t: Block): int
    requires op.JmpZnz?
  {
    var h := Head(t);
    if t.protected then -1
    else if ((h.CondJmp? && !h.nz) || h.JmpZnz?) && SameVarByte(op.cond, h.cond) && t.op2To >= 0 then t.op2To
    else if h.CondJmp? && h.nz && SameVarByte(op.cond, h.cond) && t.followTo >= 0 then t.followTo
    else if h.Jmp? && t.op1To >= 0 then t.op1To
    else -1
  }

  function ZeroRewriting(cfg: Cfg, b: nat): (w: Rewriting)
    requires b < |cfg| && Last(cfg[b]).JmpZnz?
    ensures w.Lead? ==> w.y < |cfg| && |w.blk.ops| == |cfg[b].ops|
  {
    var t := Past(cfg, cfg[b].op2To);
    var e := if 0 <= t < |cfg| then AheadOnZero(Last(cfg[b]), cfg[t]) else -1;
    if e >= 0 && 0 <= cfg[b].op2To < |cfg| then Lead(cfg[b].op2To, cfg[b].(op2To := e), Led(-1, e, -1, -1)) else Leave
  }

  // ---- runs of NOPs

  ghost predicate LeadsOrIs(env: Env, cfg: Cfg, s: CState, u: CState) { s == u || Leads(env, cfg, s, u) }

  lemma LeadsOn(env: Env, cfg: Cfg, s: CState, u: CState, v: CState)
    requires Leads(env, cfg, s, u) && LeadsOrIs(env, cfg, u, v)
    ensures Leads(env, cfg, s, v)
  {
    if u != v {
      LeadsTrans(env, cfg, s, u, v);
    }
  }

  /** Inside a block NOPs are stepped over one by one. */
  lemma {:induction false} NopsLead(env: Env, cfg: Cfg, s: CState, k: nat)
    requires !s.done && Live(cfg, s.b) && s.off == 0 && k < |cfg[s.b].ops|
    requires forall i {:trigger cfg[s.b].ops[i]} :: 0 <= i < k ==> cfg[s.b].ops[i].Nop?
    ensures LeadsOrIs(env, cfg, s, s.(off := k))
    decreases k
  {
    if k > 0 {
      NopsLead(env, cfg, s, k - 1);
      var u := s.(off := k - 1);
      assert cfg[s.b].ops[k - 1].Nop? && CStep(env, cfg, u) == s.(off := k);
      LeadsStep(env, cfg, u);
      if s != u {
        LeadsTrans(env, cfg, s, u, s.(off := k));
      }
    }
  }

  lemma {:induction false} PastIs(cfg: Cfg, root: int, y: nat)
    requires Wf(cfg, root) && Live(cfg, y)
    ensures var t := Past(cfg, y); y <= t && Live(cfg, t) && !NopOnly(cfg[t]) && FirstReal(cfg[t].ops) < |cfg[t].ops|
    decreases |cfg| - y
  {
    assert Shaped(cfg[y]);
    if NopOnly(cfg[y]) {
      assert cfg[y].ops[|cfg[y].ops| - 1].Nop?;
      assert Falls(cfg, y, cfg[y].followTo);
      PastIs(cfg, root, cfg[y].followTo);
    }
  }

  /** A block of NOPs leads to the block it falls to. */
  lemma NopBlockLeads(env: Env, cfg: Cfg, root: int, y: nat, s: CState)
    requires Wf(cfg, root) && Live(cfg, y) && NopOnly(cfg[y]) && s == CState(y, 0, s.temps, s.trace, false)
    ensures Falls(cfg, y, cfg[y].followTo) && Leads(env, cfg, s, s.(b := cfg[y].followTo))
  {
    assert Shaped(cfg[y]);
    var k, h := |cfg[y].ops| - 1, cfg[y].followTo;
    assert cfg[y].ops[k].Nop?;
    assert Falls(cfg, y, h);
    NopsLead(env, cfg, s, k);
    var u, v := s.(off := k), s.(b := h);
    assert CStep(env, cfg, u) == v;
    LeadsStep(env, cfg, u);
    if s != u {
      LeadsTrans(env, cfg, s, u, v);
    }
  }

  /** Entering block y, control comes to the first real op past it. */
  lemma {:induction false} PastLeads(env: Env, cfg: Cfg, root: int, y: nat, s: CState)
    requires Wf(cfg, root) && Live(cfg, y) && s == CState(y, 0, s.temps, s.trace, false)
    ensures var t := Past(cfg, y); Live(cfg, t) && LeadsOrIs(env, cfg, s, s.(b := t, off := FirstReal(cfg[t].ops)))
    decreases |cfg| - y
  {
    PastIs(cfg, root, y);
    if NopOnly(cfg[y]) {
      NopBlockLeads(env, cfg, root, y, s);
      var v, t := s.(b := cfg[y].followTo), Past(cfg, y);
      PastLeads(env, cfg, root, cfg[y].followTo, v);
      LeadsOn(env, cfg, s, v, s.(b := t, off := FirstReal(cfg[t].ops)));
    } else {
      NopsLead(env, cfg, s, FirstReal(cfg[y].ops));
    }
  }

  /** It is enough that the new last op does what the old graph does. */
  lemma MatchesByLast(env: Env, cfg: Cfg, root: int, b: nat, blk: Block)
    requires Wf(cfg, root) && Live(cfg, b) && Shaped(blk) && |blk.ops| == |cfg[b].ops|
    requires blk.ops[..|blk.ops| - 1] == cfg[b].ops[..|blk.ops| - 1]
    requires forall s: CState {:trigger BlockStep(env, blk, s)} :: !s.done && s.b == b && s.off == |blk.ops| - 1 ==>
      Leads(env, cfg, s, BlockStep(env, blk, s))
    ensures Matches(env, cfg, b, blk)
  {
    forall s: CState | !s.done && s.b == b && s.off < |blk.ops| ensures Leads(env, cfg, s, BlockStep(env, blk, s)) {
      if s.off < |blk.ops| - 1 {
        assert blk.ops[s.off] == blk.ops[..|blk.ops| - 1][s.off] == cfg[b].ops[s.off];
        assert Plain(blk.ops[s.off]);
        LeadsStep(env, cfg, s);
      }
    }
  }

  // ---- every rewriting keeps runs

  /** What a rewriting relies on: del_source must not take away the entry, nor a block that is still led to, nor b
      itself, and the source that it takes from a list must come back if b still leads there; a block that becomes empty
      must not be protected. */
  predicate Safe(cfg: Cfg, root: int, b: nat, w: Rewriting)
    requires b < |cfg| && (w.Lead? ==> w.y < |cfg|)
  {
    match w
    case Lead(y, blk, add) => Fine(cfg, root, b, y, blk, add)
    case DropJump(_) => |cfg[b].ops| == 1 ==> !cfg[b].protected
    case _ => true
  }

  ghost predicate Good(env: Env, cfg: Cfg, root: int, b: nat, w: Rewriting) {
    Wf(cfg, root) && Live(cfg, b) && !NopOnly(cfg[b]) &&
    match w
    case Leave => true
    case Recode(blk) =>
      && Shaped(blk) && (blk.followTo >= 0 ==> Falls(cfg, b, blk.followTo)) && SameEdges(blk, cfg[b])
      && (cfg[b].op2To >= 0) && Matches(env, cfg, b, blk)
    case Lead(y, blk, add) => Fits(cfg, root, b, y, blk, add) && Matches(env, cfg, b, blk)
    case DropJump(to) =>
      Last(cfg[b]).Jmp? && cfg[b].op1To == to && Falls(cfg, b, to) && (|cfg[b].ops| == 1 ==> !cfg[b].protected)
  }

  function RootOf(cfg: Cfg, root: int, b: nat, w: Rewriting): int
    requires b < |cfg|
  {
    if w.DropJump? && |cfg[b].ops| == 1 && root == b then w.to else root
  }

  lemma FallenMatches(env: Env, cfg: Cfg, root: int, b: nat, to: nat)
    requires Good(env, cfg, root, b, DropJump(to)) && |cfg[b].ops| > 1
    ensures Shaped(Fallen(cfg[b], to)) && SameEdges(Fallen(cfg[b], to), cfg[b])
    ensures Matches(env, cfg, b, Fallen(cfg[b], to))
  {
    var blk, n := Fallen(cfg[b], to), |cfg[b].ops| - 1;
    assert Shaped(cfg[b]);
    assert forall i {:trigger blk.ops[i]} :: 0 <= i < n ==> blk.ops[i] == cfg[b].ops[i] && Plain(blk.ops[i]);
    forall s: CState | !s.done && s.b == b && s.off < |blk.ops| ensures Leads(env, cfg, s, BlockStep(env, blk, s)) {
      assert blk.ops[s.off] == cfg[b].ops[s.off] && Plain(blk.ops[s.off]);
      FallenStep(env, cfg, b, to, blk, s);
    }
  }

  lemma FallenStep(env: Env, cfg: Cfg, b: nat, to: nat, blk: Block, s: CState)
    requires Live(cfg, b) && |cfg[b].ops| > 1 && Last(cfg[b]).Jmp? && cfg[b].op1To == to && blk == Fallen(cfg[b], to)
    requires !s.done && s.b == b && s.off < |blk.ops| && blk.ops[s.off] == cfg[b].ops[s.off] && Plain(blk.ops[s.off])
    ensures Leads(env, cfg, s, BlockStep(env, blk, s))
  {
    LeadsStep(env, cfg, s);
    var u := CStep(env, cfg, s);
    if !u.done && s.off == |blk.ops| - 1 {
      assert CStep(env, cfg, u) == BlockStep(env, blk, s);
      LeadsStep(env, cfg, u);
      LeadsTrans(env, cfg, s, u, CStep(env, cfg, u));
    }
  }

  lemma RecodeSize(cfg: Cfg, b: nat, blk: Block)
    requires b < |cfg| && |blk.ops| <= |cfg[b].ops|
    ensures Size(SetCode(cfg, b, blk), |cfg|) <= Size(cfg, |cfg|)
  {
    SizeLess(cfg, SetCode(cfg, b, blk), |cfg|);
  }

  /** A good rewriting of one block changes no run. */
  lemma ApplyPreserves(env: Env, cfg: Cfg, root: int, b: nat, w: Rewriting)
    requires Good(env, cfg, root, b, w) && |cfg[b].ops| > 0
    requires w.Lead? || w.Recode? ==> |w.blk.ops| == |cfg[b].ops|
    ensures w.Lead? ==> w.y < |cfg|
    ensures var r, root2 := Apply(cfg, b, w), RootOf(cfg, root, b, w);
      Keeps(env, cfg, root, r, root2)
  {
    match w
    case Leave =>
    case Recode(blk) =>
      assert Edge(cfg[b], cfg[b].op2To) && Live(cfg, cfg[b].op2To);
      RecodeEdit(cfg, root, b, cfg[b].op2To, blk);
      EditPreserves(env, cfg, root, b, cfg[b].op2To, blk, Kept, Apply(cfg, b, w));
      RecodeSize(cfg, b, blk);
    case Lead(y, blk, add) =>
      RedirectEdit(cfg, root, b, y, blk, add);
      EditPreserves(env, cfg, root, b, y, blk, FateOf(cfg, b, y), Apply(cfg, b, w));
      EditSize(cfg, root, b, y, blk, FateOf(cfg, b, y), Apply(cfg, b, w));
    case DropJump(to) =>
      var blk := Fallen(cfg[b], to);
      assert Shaped(cfg[b]);
      if |cfg[b].ops| == 1 {
        DeletePreserves(env, cfg, root, b, to, SetCode(cfg, b, blk));
      } else {
        FallenMatches(env, cfg, root, b, to);
        assert Edge(cfg[b], to);
        RecodeEdit(cfg, root, b, to, blk);
        EditPreserves(env, cfg, root, b, to, blk, Kept, Apply(cfg, b, w));
        RecodeSize(cfg, b, blk);
      }
  }

  // ---- and every rewriting that is made is good

  lemma LastIsReal(cfg: Cfg, root: int, b: nat)
    requires Wf(cfg, root) && Live(cfg, b) && !Plain(Last(cfg[b]))
    ensures !NopOnly(cfg[b]) && Shaped(cfg[b])
  {
    assert cfg[b].ops[|cfg[b].ops| - 1] == Last(cfg[b]);
  }

  lemma WithLastShape(blk: Block, op: Op)
    requires Shaped(blk)
    ensures var ops := WithLast(blk, op);
      && |ops| == |blk.ops| && ops[..|ops| - 1] == blk.ops[..|ops| - 1] && ops[|ops| - 1] == op
      && forall i {:trigger ops[i]} :: 0 <= i < |ops| - 1 ==> Plain(ops[i])
  {
  }

  /** Block t is led to, and so is everything it leads to. */
  lemma LedTo(cfg: Cfg, root: int, x: nat, e: int)
    requires Wf(cfg, root) && Live(cfg, x) && Edge(cfg[x], e)
    ensures Targeted(cfg, e) && Shaped(cfg[x]) && x in cfg[e].sources
  {
    assert Live(cfg, e);
  }

  lemma JumpFits(cfg: Cfg, root: int, b: nat)
    requires Wf(cfg, root) && Live(cfg, b) && Last(cfg[b]).Jmp? && 0 <= cfg[b].op1To < |cfg|
    ensures match JumpRewriting(cfg, b)
      case Lead(y, blk, add) => Sensible(cfg, root, b, y, blk, add) && y != b
      case DropJump(to) => Falls(cfg, b, to)
      case _ => true
  {
    LastIsReal(cfg, root, b);
    var t, w := cfg[b].op1To, JumpRewriting(cfg, b);
    LedTo(cfg, root, b, t);
    NextLiveIs(cfg, b);
    if w.Lead? {
      JumpCopyFits(cfg, root, b, t, w.blk, w.add);
    }
  }

  lemma JumpCopyFits(cfg: Cfg, root: int, b: nat, t: nat, blk: Block, add: Block)
    requires Wf(cfg, root) && Live(cfg, b) && Last(cfg[b]).Jmp? && cfg[b].op1To == t < |cfg|
    requires JumpRewriting(cfg, b) == Lead(t, blk, add)
    ensures Sensible(cfg, root, b, t, blk, add) && t != b
  {
    LastIsReal(cfg, root, b);
    LedTo(cfg, root, b, t);
    assert Shaped(cfg[t]);
    WithLastShape(cfg[b], cfg[t].ops[0]);
    assert |cfg[t].ops| == 1;
    forall e | Edge(blk, e) ensures Targeted(cfg, e) {
      LedTo(cfg, root, t, e);
    }
  }

  /** A copied jump can only go wrong by taking the entry away. */
  lemma JumpSafe(cfg: Cfg, root: int, b: nat)
    requires Wf(cfg, root) && Live(cfg, b) && Last(cfg[b]).Jmp? && 0 <= cfg[b].op1To < |cfg|
    requires JumpRewriting(cfg, b).Lead?
    ensures var w := JumpRewriting(cfg, b);
      Safe(cfg, root, b, w) <==> (w.y == root ==> FateOf(cfg, b, w.y) == Kept)
  {
    var w, t := JumpRewriting(cfg, b), cfg[b].op1To;
    JumpFits(cfg, root, b);
    LedTo(cfg, root, b, t);
    assert Shaped(cfg[t]);
    if Edge(w.blk, t) {
      KeptIfStillLedTo(cfg, root, b, t, t);
    }
  }

  /** A jump to a block with a single op that leaves it, and that op in its place. */
  lemma JumpStep(env: Env, cfg: Cfg, b: nat, t: nat, blk: Block, s: CState)
    requires Live(cfg, b) && Shaped(cfg[b]) && Last(cfg[b]).Jmp? && cfg[b].op1To == t
    requires Live(cfg, t) && |cfg[t].ops| == 1 && !Plain(cfg[t].ops[0])
    requires |blk.ops| == |cfg[b].ops| && Last(blk) == cfg[t].ops[0]
    requires blk.op1To == cfg[t].op1To && blk.op2To == cfg[t].op2To && blk.extTo == cfg[t].extTo
    requires blk.followTo == cfg[t].followTo
    requires !s.done && s.b == b && s.off == |cfg[b].ops| - 1
    ensures Leads(env, cfg, s, BlockStep(env, blk, s))
  {
    LeadsStep(env, cfg, s);
    var u := CStep(env, cfg, s);
    assert u == s.(b := t, off := 0);
    LeadsStep(env, cfg, u);
    LeadsTrans(env, cfg, s, u, CStep(env, cfg, u));
    assert CStep(env, cfg, u) == BlockStep(env, cfg[t], u) == BlockStep(env, blk, s);
  }

  lemma JumpMatches(env: Env, cfg: Cfg, root: int, b: nat, t: nat, blk: Block)
    requires Wf(cfg, root) && Live(cfg, b) && Last(cfg[b]).Jmp? && cfg[b].op1To == t && Shaped(blk)
    requires Live(cfg, t) && |cfg[t].ops| == 1 && !Plain(cfg[t].ops[0])
    requires |blk.ops| == |cfg[b].ops| && blk.ops[..|blk.ops| - 1] == cfg[b].ops[..|blk.ops| - 1]
    requires Last(blk) == cfg[t].ops[0]
    requires blk.op1To == cfg[t].op1To && blk.op2To == cfg[t].op2To && blk.extTo == cfg[t].extTo
    requires blk.followTo == cfg[t].followTo
    ensures Matches(env, cfg, b, blk)
  {
    assert Shaped(cfg[b]);
    forall s: CState | !s.done && s.b == b && s.off == |blk.ops| - 1
      ensures Leads(env, cfg, s, BlockStep(env, blk, s))
    {
      JumpStep(env, cfg, b, t, blk, s);
    }
    MatchesByLast(env, cfg, root, b, blk);
  }

  /** The copied op takes with it the ways out of its block. */
  lemma JumpLeadIs(cfg: Cfg, root: int, b: nat, t: nat, blk: Block)
    requires Wf(cfg, root) && Live(cfg, b) && Last(cfg[b]).Jmp? && cfg[b].op1To == t && Live(cfg, t)
    requires JumpRewriting(cfg, b).Lead? && JumpRewriting(cfg, b).y == t && JumpRewriting(cfg, b).blk == blk
    ensures |cfg[t].ops| == 1 && !Plain(cfg[t].ops[0]) && Shaped(blk)
    ensures |blk.ops| == |cfg[b].ops| && blk.ops[..|blk.ops| - 1] == cfg[b].ops[..|blk.ops| - 1]
    ensures Last(blk) == cfg[t].ops[0]
    ensures blk.op1To == cfg[t].op1To && blk.op2To == cfg[t].op2To && blk.extTo == cfg[t].extTo
    ensures blk.followTo == cfg[t].followTo
  {
    assert Shaped(cfg[b]) && Shaped(cfg[t]);
    WithLastShape(cfg[b], cfg[t].ops[0]);
  }

  lemma JumpGood(env: Env, cfg: Cfg, root: int, b: nat)
    requires Wf(cfg, root) && Live(cfg, b) && Last(cfg[b]).Jmp? && 0 <= cfg[b].op1To < |cfg|
    requires Safe(cfg, root, b, JumpRewriting(cfg, b))
    ensures Good(env, cfg, root, b, JumpRewriting(cfg, b))
  {
    JumpFits(cfg, root, b);
    LastIsReal(cfg, root, b);
    var t, w := cfg[b].op1To, JumpRewriting(cfg, b);
    LedTo(cfg, root, b, t);
    if w.Lead? {
      JumpLeadIs(cfg, root, b, t, w.blk);
      JumpMatches(env, cfg, root, b, t, w.blk);
    }
  }

  /** The rewritten branch makes the same step as before. */
  lemma SameStepMatches(env: Env, cfg: Cfg, root: int, b: nat, blk: Block)
    requires Wf(cfg, root) && Live(cfg, b) && Shaped(blk) && |blk.ops| == |cfg[b].ops|
    requires blk.ops[..|blk.ops| - 1] == cfg[b].ops[..|blk.ops| - 1]
    requires forall s: CState {:trigger BlockStep(env, blk, s)} :: s.b == b && s.off == |blk.ops| - 1 ==>
      BlockStep(env, blk, s) == BlockStep(env, cfg[b], s)
    ensures Matches(env, cfg, b, blk)
  {
    forall s: CState | !s.done && s.b == b && s.off == |blk.ops| - 1
      ensures Leads(env, cfg, s, BlockStep(env, blk, s))
    {
      LeadsStep(env, cfg, s);
    }
    MatchesByLast(env, cfg, root, b, blk);
  }

  lemma ConstSensible(env: Env, cfg: Cfg, root: int, b: nat)
    requires Wf(cfg, root) && Live(cfg, b) && Last(cfg[b]).CondJmp? && Last(cfg[b]).cond.Const?
    requires 0 <= cfg[b].op2To < |cfg| && 0 <= cfg[b].followTo < |cfg|
    ensures var w := ConstRewriting(cfg, b); Sensible(cfg, root, b, w.y, w.blk, w.add) && Matches(env, cfg, b, w.blk)
  {
    var w := ConstRewriting(cfg, b);
    LastIsReal(cfg, root, b);
    LedTo(cfg, root, b, cfg[b].op2To);
    LedTo(cfg, root, b, cfg[b].followTo);
    assert Falls(cfg, b, cfg[b].followTo);
    WithLastShape(cfg[b], Last(w.blk));
    SameStepMatches(env, cfg, root, b, w.blk);
  }

  /** The block past the NOPs at block y, met by a jump to y. */
  lemma AheadIs(cfg: Cfg, root: int, b: nat, y: nat)
    requires Wf(cfg, root) && Live(cfg, b) && Edge(cfg[b], y)
    ensures var t := Past(cfg, y);
      && 0 <= t < |cfg| && Live(cfg, t) && Shaped(cfg[t]) && Live(cfg, y)
      && FirstReal(cfg[t].ops) < |cfg[t].ops| && Head(cfg[t]) == cfg[t].ops[FirstReal(cfg[t].ops)]
      && (!Plain(Head(cfg[t])) ==> FirstReal(cfg[t].ops) == |cfg[t].ops| - 1)
  {
    LedTo(cfg, root, b, y);
    PastIs(cfg, root, y);
    var t := Past(cfg, y);
    assert Shaped(cfg[t]);
  }

  /** Leading op2_to ahead to where block t leads. */
  lemma ForwardSensible(cfg: Cfg, root: int, b: nat, y: nat, t: nat, e: int)
    requires Wf(cfg, root) && Live(cfg, b) && (Last(cfg[b]).CondJmp? || Last(cfg[b]).JmpZnz?)
    requires y == cfg[b].op2To && Live(cfg, t) && Edge(cfg[t], e)
    ensures Sensible(cfg, root, b, y, cfg[b].(op2To := e), Led(-1, e, -1, -1))
  {
    LastIsReal(cfg, root, b);
    var blk := cfg[b].(op2To := e);
    LedTo(cfg, root, b, y);
    LedTo(cfg, root, t, e);
    forall z | Edge(blk, z) ensures Targeted(cfg, z) {
      if z != e {
        LedTo(cfg, root, b, z);
      }
    }
  }

  lemma AheadHeadReal(op: Op, t: Block)
    requires op.CondJmp? && Ahead(op, t) >= 0
    ensures !Plain(Head(t))
  {
  }

  lemma AheadIsEdge(op: Op, t: Block)
    requires op.CondJmp? && Shaped(t) && Ahead(op, t) >= 0 && FirstReal(t.ops) == |t.ops| - 1
    ensures Edge(t, Ahead(op, t))
  {
  }

  lemma ThreadSensible(cfg: Cfg, root: int, b: nat)
    requires Wf(cfg, root) && Live(cfg, b) && Last(cfg[b]).CondJmp?
    ensures var w := ThreadRewriting(cfg, b); w.Lead? ==> Sensible(cfg, root, b, w.y, w.blk, w.add)
  {
    LastIsReal(cfg, root, b);
    var y := cfg[b].op2To;
    if ThreadRewriting(cfg, b).Lead? {
      AheadIs(cfg, root, b, y);
      var t := Past(cfg, y);
      AheadHeadReal(Last(cfg[b]), cfg[t]);
      AheadIsEdge(Last(cfg[b]), cfg[t]);
      ForwardSensible(cfg, root, b, y, t, Ahead(Last(cfg[b]), cfg[t]));
    }
  }

  /** Control that takes the jump of block b ends up where the jump past it leads. */
  lemma AheadLeads(env: Env, cfg: Cfg, root: int, b: nat, y: nat, s: CState, v: CState)
    requires Wf(cfg, root) && Live(cfg, b) && Edge(cfg[b], y) && !s.done && Past(cfg, y) < |cfg|
    requires CStep(env, cfg, s) == CState(y, 0, s.temps, s.trace, false)
    requires var t := Past(cfg, y); t >= 0 && v == BlockStep(env, cfg[t], s.(b := t, off := FirstReal(cfg[t].ops)))
    ensures Leads(env, cfg, s, v)
  {
    AheadIs(cfg, root, b, y);
    var u := CStep(env, cfg, s);
    var t := Past(cfg, y);
    var x := s.(b := t, off := FirstReal(cfg[t].ops));
    LeadsStep(env, cfg, s);
    PastLeads(env, cfg, root, y, u);
    LeadsOn(env, cfg, s, u, x);
    LeadsStep(env, cfg, x);
    assert v == CStep(env, cfg, x);
    LeadsTrans(env, cfg, s, x, v);
  }

  /** A branch on a variable that was just tested the other way or the same way is decided. */
  lemma AheadStep(env: Env, op: Op, t: Block, s: CState)
    requires op.CondJmp? && Ahead(op, t) >= 0 && Shaped(t) && !s.done && s.off == FirstReal(t.ops) == |t.ops| - 1
    requires Truthy(Read(env, State(0, s.temps, s.trace, false), op.cond)) == op.nz
    ensures BlockStep(env, t, s) == CState(Ahead(op, t), 0, s.temps, s.trace, false)
  {
    assert Head(t) == t.ops[s.off];
  }

  lemma BranchStep(env: Env, blk: Block, op: Op, s: CState)
    requires op == Last(blk) && op.CondJmp? && !s.done && s.off == |blk.ops| - 1
    ensures BlockStep(env, blk, s) == CState(
      if Truthy(Read(env, State(0, s.temps, s.trace, false), op.cond)) == op.nz then blk.op2To else blk.followTo,
      0, s.temps, s.trace, false)
  {
  }

  lemma ThreadLeads(env: Env, cfg: Cfg, root: int, b: nat, y: nat, t: nat, op: Op, blk: Block, s: CState)
    requires Wf(cfg, root) && Live(cfg, b) && op == Last(cfg[b]) && op.CondJmp? && y == cfg[b].op2To
    requires t == Past(cfg, y) < |cfg|
    requires Ahead(op, cfg[t]) >= 0 && blk == cfg[b].(op2To := Ahead(op, cfg[t]))
    requires !s.done && s.b == b && s.off == |blk.ops| - 1
    ensures Leads(env, cfg, s, BlockStep(env, blk, s))
  {
    BranchStep(env, cfg[b], op, s);
    BranchStep(env, blk, op, s);
    if Truthy(Read(env, State(0, s.temps, s.trace, false), op.cond)) == op.nz {
      AheadIs(cfg, root, b, y);
      AheadHeadReal(op, cfg[t]);
      AheadStep(env, op, cfg[t], s.(b := t, off := FirstReal(cfg[t].ops)));
      AheadLeads(env, cfg, root, b, y, s, BlockStep(env, blk, s));
    } else {
      LeadsStep(env, cfg, s);
    }
  }

  lemma ThreadMatches(env: Env, cfg: Cfg, root: int, b: nat, y: nat, t: nat, op: Op, blk: Block)
    requires Wf(cfg, root) && Live(cfg, b) && op == Last(cfg[b]) && op.CondJmp? && y == cfg[b].op2To
    requires t == Past(cfg, y) < |cfg|
    requires Ahead(op, cfg[t]) >= 0 && blk == cfg[b].(op2To := Ahead(op, cfg[t]))
    ensures Matches(env, cfg, b, blk)
  {
    assert Shaped(cfg[b]) && Shaped(blk);
    forall s: CState | !s.done && s.b == b && s.off == |blk.ops| - 1
      ensures Leads(env, cfg, s, BlockStep(env, blk, s))
    {
      ThreadLeads(env, cfg, root, b, y, t, op, blk, s);
    }
    MatchesByLast(env, cfg, root, b, blk);
  }

  lemma ThreadGood(env: Env, cfg: Cfg, root: int, b: nat)
    requires Wf(cfg, root) && Live(cfg, b) && Last(cfg[b]).CondJmp? && Safe(cfg, root, b, ThreadRewriting(cfg, b))
    ensures Good(env, cfg, root, b, ThreadRewriting(cfg, b))
  {
    ThreadSensible(cfg, root, b);
    LastIsReal(cfg, root, b);
    var w, y := ThreadRewriting(cfg, b), cfg[b].op2To;
    if w.Lead? {
      ThreadMatches(env, cfg, root, b, y, Past(cfg, y), Last(cfg[b]), w.blk);
    }
  }

  lemma FallsOver(cfg: Cfg, x: int, y: nat, z: int)
    requires Falls(cfg, x, y) && Falls(cfg, y, z) && NopOnly(cfg[y])
    ensures Falls(cfg, x, z)
  {
  }

  lemma SkipSensible(cfg: Cfg, root: int, b: nat)
    requires Wf(cfg, root) && Live(cfg, b) && Last(cfg[b]).CondJmp?
    ensures var w := SkipRewriting(cfg, b); w.Lead? ==> Sensible(cfg, root, b, w.y, w.blk, w.add)
  {
    LastIsReal(cfg, root, b);
    if SkipRewriting(cfg, b).Lead? {
      var y := cfg[b].followTo;
      var g := cfg[y].followTo;
      LedTo(cfg, root, b, y);
      LedTo(cfg, root, b, cfg[b].op2To);
      LedTo(cfg, root, y, g);
      FallsOver(cfg, b, y, g);
    }
  }

  lemma SkipGood(env: Env, cfg: Cfg, root: int, b: nat)
    requires Wf(cfg, root) && Live(cfg, b) && Last(cfg[b]).CondJmp? && Safe(cfg, root, b, SkipRewriting(cfg, b))
    ensures Good(env, cfg, root, b, SkipRewriting(cfg, b))
  {
    LastIsReal(cfg, root, b);
    SkipSensible(cfg, root, b);
    if SkipRewriting(cfg, b).Lead? {
      var blk, y := SkipRewriting(cfg, b).blk, cfg[b].followTo;
      forall s: CState | !s.done && s.b == b && s.off == |blk.ops| - 1
        ensures Leads(env, cfg, s, BlockStep(env, blk, s))
      {
        var u := CStep(env, cfg, s);
        LeadsStep(env, cfg, s);
        if u.b == y && BlockStep(env, blk, s) != u {
          NopBlockLeads(env, cfg, root, y, u);
          LeadsTrans(env, cfg, s, u, u.(b := cfg[y].followTo));
        }
      }
      MatchesByLast(env, cfg, root, b, blk);
    }
  }

  lemma FuseLeads(cfg: Cfg, root: int, b: nat)
    requires Wf(cfg, root) && Live(cfg, b) && Last(cfg[b]).CondJmp? && FuseRewriting(cfg, b).Lead?
    ensures var y := FuseRewriting(cfg, b).y; y == cfg[b].followTo && Live(cfg, y) && Falls(cfg, b, y)
    ensures Targeted(cfg, cfg[b].op2To) && Targeted(cfg, cfg[FuseRewriting(cfg, b).y].op1To)
  {
    LastIsReal(cfg, root, b);
    var y := cfg[b].followTo;
    LedTo(cfg, root, b, cfg[b].op2To);
    LedTo(cfg, root, b, y);
    AheadIs(cfg, root, b, y);
    LedTo(cfg, root, y, cfg[y].op1To);
  }

  lemma FuseShaped(cfg: Cfg, b: nat)
    requires b < |cfg| && Last(cfg[b]).CondJmp? && Shaped(cfg[b])
    ensures var w := FuseRewriting(cfg, b); w.Lead? ==>
      Shaped(w.blk) && w.blk.followTo == -1 && |w.blk.ops| == |cfg[b].ops|
        && w.blk.ops[..|w.blk.ops| - 1] == cfg[b].ops[..|w.blk.ops| - 1]
  {
    var op := Last(cfg[b]);
    WithLastShape(cfg[b], JmpZnz(op.cond, op.target, op.target));
  }

  lemma FuseSensible(cfg: Cfg, root: int, b: nat)
    requires Wf(cfg, root) && Live(cfg, b) && Last(cfg[b]).CondJmp?
    ensures var w := FuseRewriting(cfg, b); w.Lead? ==> Sensible(cfg, root, b, w.y, w.blk, w.add)
  {
    LastIsReal(cfg, root, b);
    var w := FuseRewriting(cfg, b);
    if w.Lead? {
      FuseShaped(cfg, b);
      FuseLeads(cfg, root, b);
      FuseWays(cfg, b, w);
    }
  }

  lemma FuseWays(cfg: Cfg, b: nat, w: Rewriting)
    requires b < |cfg| && Last(cfg[b]).CondJmp? && w == FuseRewriting(cfg, b) && w.Lead? && Shaped(cfg[b])
    ensures forall e {:trigger Edge(w.blk, e)} ::
      Edge(w.blk, e) <==> e >= 0 && (e == cfg[b].op2To || e == cfg[w.y].op1To)
    ensures forall e {:trigger Edge(w.add, e)} :: Edge(w.add, e) <==> e >= 0 && e == cfg[w.y].op1To
    ensures forall e {:trigger Edge(cfg[b], e)} :: Edge(cfg[b], e) <==> e >= 0 && (e == cfg[b].op2To || e == w.y)
  {
  }

  lemma FuseMatches(env: Env, cfg: Cfg, root: int, b: nat, y: nat, op: Op, blk: Block)
    requires Wf(cfg, root) && Live(cfg, b) && op == Last(cfg[b]) && op.CondJmp? && y == cfg[b].followTo < |cfg|
    requires Shaped(blk)
    requires Head(cfg[y]).Jmp? && |blk.ops| == |cfg[b].ops| && blk.ops[..|blk.ops| - 1] == cfg[b].ops[..|blk.ops| - 1]
    requires blk.ops[|blk.ops| - 1] == JmpZnz(op.cond, op.target, op.target)
    requires blk.op2To == if op.nz then cfg[y].op1To else cfg[b].op2To
    requires blk.extTo == if op.nz then cfg[b].op2To else cfg[y].op1To
    ensures Matches(env, cfg, b, blk)
  {
    assert Shaped(cfg[b]) && Edge(cfg[b], y) && !NopOnly(cfg[y]);
    AheadIs(cfg, root, b, y);
    forall s: CState | !s.done && s.b == b && s.off == |blk.ops| - 1
      ensures Leads(env, cfg, s, BlockStep(env, blk, s))
    {
      if Truthy(Read(env, State(0, s.temps, s.trace, false), op.cond)) == op.nz {
        LeadsStep(env, cfg, s);
        assert CStep(env, cfg, s) == BlockStep(env, blk, s);
      } else {
        assert CStep(env, cfg, s) == CState(y, 0, s.temps, s.trace, false);
        AheadLeads(env, cfg, root, b, y, s, BlockStep(env, blk, s));
      }
    }
    MatchesByLast(env, cfg, root, b, blk);
  }

  lemma FuseGood(env: Env, cfg: Cfg, root: int, b: nat)
    requires Wf(cfg, root) && Live(cfg, b) && Last(cfg[b]).CondJmp? && Safe(cfg, root, b, FuseRewriting(cfg, b))
    ensures Good(env, cfg, root, b, FuseRewriting(cfg, b))
  {
    LastIsReal(cfg, root, b);
    var w := FuseRewriting(cfg, b);
    FuseSensible(cfg, root, b);
    FuseShaped(cfg, b);
    if w.Lead? {
      FuseMatches(env, cfg, root, b, w.y, Last(cfg[b]), w.blk);
    }
  }

  lemma SplitConstSensible(env: Env, cfg: Cfg, root: int, b: nat, op: Op, y: nat, e: int, blk: Block)
    requires Wf(cfg, root) && Live(cfg, b) && op == Last(cfg[b]) && op.JmpZnz? && op.cond.Const? && |cfg[b].ops| > 0
    requires y == (if Truthy(op.cond.v) then cfg[b].op2To else cfg[b].extTo)
      && e == if Truthy(op.cond.v) then cfg[b].extTo else cfg[b].op2To
    requires blk == cfg[b].(ops := WithLast(cfg[b], Jmp(op.onZero)), op1To := e, op2To := -1, extTo := -1)
    ensures Sensible(cfg, root, b, y, blk, NOWHERE) && Matches(env, cfg, b, blk)
  {
    LastIsReal(cfg, root, b);
    LedTo(cfg, root, b, y);
    LedTo(cfg, root, b, e);
    WithLastShape(cfg[b], Jmp(op.onZero));
    SameStepMatches(env, cfg, root, b, blk);
  }

  lemma SplitSensible(env: Env, cfg: Cfg, root: int, b: nat)
    requires Wf(cfg, root) && Live(cfg, b) && Last(cfg[b]).JmpZnz? && 0 <= cfg[b].op2To < |cfg|
    requires 0 <= cfg[b].extTo < |cfg|
    ensures var w := SplitRewriting(cfg, b);
      w.Lead? ==> Sensible(cfg, root, b, w.y, w.blk, w.add) && Matches(env, cfg, b, w.blk)
  {
    var w := SplitRewriting(cfg, b);
    if w.Lead? {
      LastIsReal(cfg, root, b);
      SplitConstSensible(env, cfg, root, b, Last(cfg[b]), w.y, w.blk.op1To, w.blk);
    }
  }

  lemma SplitGood(env: Env, cfg: Cfg, root: int, b: nat)
    requires Wf(cfg, root) && Live(cfg, b) && Last(cfg[b]).JmpZnz? && 0 <= cfg[b].op2To < |cfg|
    requires 0 <= cfg[b].extTo < |cfg|
    requires Safe(cfg, root, b, SplitRewriting(cfg, b))
    ensures Good(env, cfg, root, b, SplitRewriting(cfg, b))
  {
    LastIsReal(cfg, root, b);
    var w := SplitRewriting(cfg, b);
    SplitSensible(env, cfg, root, b);
    if w.Recode? {
      SplitRecodeGood(env, cfg, root, b, Last(cfg[b]), w.blk);
    }
  }

  lemma SplitRecodeGood(env: Env, cfg: Cfg, root: int, b: nat, op: Op, blk: Block)
    requires Wf(cfg, root) && Live(cfg, b) && op == Last(cfg[b]) && op.JmpZnz? && !NopOnly(cfg[b]) && Shaped(cfg[b])
    requires 0 <= cfg[b].op2To < |cfg| && 0 <= cfg[b].extTo < |cfg| && SplitRewriting(cfg, b) == Recode(blk)
    ensures Good(env, cfg, root, b, Recode(blk))
  {
    SplitRecodeFacts(env, cfg, b, op, blk);
    SameStepMatches(env, cfg, root, b, blk);
  }

  lemma SplitRecodeFacts(env: Env, cfg: Cfg, b: nat, op: Op, blk: Block)
    requires Live(cfg, b) && op == Last(cfg[b]) && op.JmpZnz? && Shaped(cfg[b])
    requires 0 <= cfg[b].op2To < |cfg| && 0 <= cfg[b].extTo < |cfg| && SplitRewriting(cfg, b) == Recode(blk)
    ensures Shaped(blk) && (blk.followTo >= 0 ==> Falls(cfg, b, blk.followTo)) && SameEdges(blk, cfg[b])
    ensures |blk.ops| == |cfg[b].ops| && blk.ops[..|blk.ops| - 1] == cfg[b].ops[..|blk.ops| - 1]
    ensures forall s: CState {:trigger BlockStep(env, blk, s)} :: s.b == b && s.off == |blk.ops| - 1 ==>
      BlockStep(env, blk, s) == BlockStep(env, cfg[b], s)
  {
    NextLiveIs(cfg, b);
    WithLastShape(cfg[b], Last(blk));
  }

  lemma ZeroIsEdge(op: Op, t: Block)
    requires op.JmpZnz? && Shaped(t) && AheadOnZero(op, t) >= 0 && FirstReal(t.ops) == |t.ops| - 1
    ensures Edge(t, AheadOnZero(op, t))
  {
  }

  lemma ZeroHeadReal(op: Op, t: Block)
    requires op.JmpZnz? && AheadOnZero(op, t) >= 0
    ensures !Plain(Head(t))
  {
  }

  /** If the way on zero is led past a test, it is a test of the same variable, or one that makes no difference. */
  predicate SameTest(op: Op, t: Block)
    requires op.JmpZnz?
  {
    AheadOnZero(op, t) >= 0 ==>
      match Head(t)
      case CondJmp(_, cond, _) => cond == op.cond || t.op2To == t.followTo
      case JmpZnz(cond, _, _) => cond == op.cond || t.op2To == t.extTo
      case _ => true
  }

  /** At the last op of block t, and what op tests is zero. */
  predicate OnZero(env: Env, op: Op, t: Block, s: CState)
    requires op.JmpZnz?
  {
    !s.done && s.off == |t.ops| - 1 && !Truthy(Read(env, State(0, s.temps, s.trace, false), op.cond))
  }

  /** From there control goes where the way on zero is led. */
  predicate GoesAhead(env: Env, op: Op, t: Block, s: CState)
    requires op.JmpZnz?
  {
    BlockStep(env, t, s) == CState(AheadOnZero(op, t), 0, s.temps, s.trace, false)
  }

  lemma ZeroStep(env: Env, op: Op, t: Block, s: CState)
    requires op.JmpZnz? && AheadOnZero(op, t) >= 0 && Shaped(t) && FirstReal(t.ops) == |t.ops| - 1
    requires SameTest(op, t) && OnZero(env, op, t, s)
    ensures GoesAhead(env, op, t, s)
  {
    assert Head(t) == t.ops[s.off];
  }

  /** A state in which what op tests is zero and what the block tests is not. */
  lemma ZeroMistaken(op: Op, t: Block) returns (env: Env, s: CState)
    requires op.JmpZnz? && AheadOnZero(op, t) >= 0 && Shaped(t) && FirstReal(t.ops) == |t.ops| - 1
    requires !SameTest(op, t)
    ensures OnZero(env, op, t, s) && !GoesAhead(env, op, t, s)
  {
    var h := Head(t);
    var n := h.cond.n;
    env := Env(trace => Throws, (trace, k) => if k == n then 1 else 0);
    s := CState(0, |t.ops| - 1, map[n := 1], [], false);
    assert h == t.ops[s.off] && op.cond.n != n;
  }

  /** That the way on zero may be led ahead is exactly that the block's test is one of the same variable, or makes no
      difference: then, and only then, control goes there in every state. */
  lemma ZeroExact(op: Op, t: Block)
    requires op.JmpZnz? && AheadOnZero(op, t) >= 0 && Shaped(t) && FirstReal(t.ops) == |t.ops| - 1
    ensures SameTest(op, t) <==>
      forall env: Env, s: CState {:trigger OnZero(env, op, t, s)} :: OnZero(env, op, t, s) ==> GoesAhead(env, op, t, s)
  {
    if SameTest(op, t) {
      forall env: Env, s: CState | OnZero(env, op, t, s) ensures GoesAhead(env, op, t, s) {
        ZeroStep(env, op, t, s);
      }
    } else {
      var env, s := ZeroMistaken(op, t);
    }
  }

  lemma ZeroLeads(env: Env, cfg: Cfg, root: int, b: nat, y: nat, t: nat, op: Op, blk: Block, s: CState)
    requires Wf(cfg, root) && Live(cfg, b) && op == Last(cfg[b]) && op.JmpZnz? && y == cfg[b].op2To
    requires t == Past(cfg, y) < |cfg|
    requires AheadOnZero(op, cfg[t]) >= 0 && blk == cfg[b].(op2To := AheadOnZero(op, cfg[t])) && SameTest(op, cfg[t])
    requires !s.done && s.b == b && s.off == |blk.ops| - 1
    ensures Leads(env, cfg, s, BlockStep(env, blk, s))
  {
    if Truthy(Read(env, State(0, s.temps, s.trace, false), op.cond)) {
      LeadsStep(env, cfg, s);
      assert CStep(env, cfg, s) == BlockStep(env, blk, s);
    } else {
      assert CStep(env, cfg, s) == CState(y, 0, s.temps, s.trace, false);
      AheadIs(cfg, root, b, y);
      ZeroHeadReal(op, cfg[t]);
      ZeroStep(env, op, cfg[t], s.(b := t, off := |cfg[t].ops| - 1));
      AheadLeads(env, cfg, root, b, y, s, BlockStep(env, blk, s));
    }
  }

  lemma ZeroMatches(env: Env, cfg: Cfg, root: int, b: nat, y: nat, t: nat, op: Op, blk: Block)
    requires Wf(cfg, root) && Live(cfg, b) && op == Last(cfg[b]) && op.JmpZnz? && y == cfg[b].op2To
    requires t == Past(cfg, y) < |cfg|
    requires AheadOnZero(op, cfg[t]) >= 0 && blk == cfg[b].(op2To := AheadOnZero(op, cfg[t])) && SameTest(op, cfg[t])
    ensures Matches(env, cfg, b, blk)
  {
    assert Shaped(cfg[b]) && Shaped(blk);
    forall s: CState | !s.done && s.b == b && s.off == |blk.ops| - 1
      ensures Leads(env, cfg, s, BlockStep(env, blk, s))
    {
      ZeroLeads(env, cfg, root, b, y, t, op, blk, s);
    }
    MatchesByLast(env, cfg, root, b, blk);
  }

  lemma ZeroSensible(cfg: Cfg, root: int, b: nat)
    requires Wf(cfg, root) && Live(cfg, b) && Last(cfg[b]).JmpZnz?
    ensures var w := ZeroRewriting(cfg, b); w.Lead? ==> Sensible(cfg, root, b, w.y, w.blk, w.add)
  {
    LastIsReal(cfg, root, b);
    var y, op := cfg[b].op2To, Last(cfg[b]);
    if ZeroRewriting(cfg, b).Lead? {
      AheadIs(cfg, root, b, y);
      var t := Past(cfg, y);
      ZeroHeadReal(op, cfg[t]);
      ZeroIsEdge(op, cfg[t]);
      ForwardSensible(cfg, root, b, y, t, AheadOnZero(op, cfg[t]));
    }
  }

  /** The block past op2_to does not look like a second test of the same variable when it is not. */
  predicate NoMistake(cfg: Cfg, b: nat)
    requires b < |cfg| && Last(cfg[b]).JmpZnz?
  {
    var t := Past(cfg, cfg[b].op2To);
    0 <= t < |cfg| ==> SameTest(Last(cfg[b]), cfg[t])
  }

  lemma ZeroGood(env: Env, cfg: Cfg, root: int, b: nat)
    requires Wf(cfg, root) && Live(cfg, b) && Last(cfg[b]).JmpZnz? && NoMistake(cfg, b)
    requires Safe(cfg, root, b, ZeroRewriting(cfg, b))
    ensures Good(env, cfg, root, b, ZeroRewriting(cfg, b))
  {
    LastIsReal(cfg, root, b);
    var w, y := ZeroRewriting(cfg, b), cfg[b].op2To;
    ZeroSensible(cfg, root, b);
    if w.Lead? {
      AheadIs(cfg, root, b, y);
      ZeroMatches(env, cfg, root, b, y, Past(cfg, y), Last(cfg[b]), w.blk);
    }
  }

  // ---- one whole call

  /** The loop that moves follow_to past blocks of NOPs. */
  function SkipAll(cfg: Cfg, b: nat): (r: Cfg)
    requires b < |cfg| && Last(cfg[b]).CondJmp?
    ensures |r| == |cfg| && r[b].ops == cfg[b].ops && r[b].op2To == cfg[b].op2To
    decreases |cfg| - cfg[b].followTo
  {
    var w := SkipRewriting(cfg, b);
    if w.Leave? then cfg
    else
      SkipCode(cfg, b);
      SkipAll(Apply(cfg, b, w), b)
  }

  lemma SkipCode(cfg: Cfg, b: nat)
    requires b < |cfg| && Last(cfg[b]).CondJmp? && SkipRewriting(cfg, b).Lead?
    ensures var w := SkipRewriting(cfg, b); w.y != b && SameCode(Redirect(cfg, b, w.y, w.blk, w.add)[b], w.blk)
  {
    var w := SkipRewriting(cfg, b);
    assert cfg[b].ops[|cfg[b].ops| - 1].CondJmp?;
    RedirectCode(cfg, b, w.y, w.blk, w.add);
  }

  function FuseNext(cfg: Cfg, b: nat): (r: Cfg)
    requires b < |cfg| && Last(cfg[b]).CondJmp?
    ensures |r| == |cfg|
  {
    Apply(cfg, b, FuseRewriting(cfg, b))
  }

  /** del_source does not drop block b itself or join it to another one. */
  predicate StaysItself(cfg: Cfg, b: nat, w: Rewriting)
    requires w.Lead? ==> w.y < |cfg|
  {
    w.Lead? && w.y == b ==> FateOf(cfg, b, w.y) == Kept
  }

  /** The jump of a branch on a variable is led ahead. */
  function Threaded(cfg: Cfg, b: nat): (r: Cfg)
    requires b < |cfg| && Last(cfg[b]).CondJmp?
    ensures |r| == |cfg| && (StaysItself(cfg, b, ThreadRewriting(cfg, b)) ==> r[b].ops == cfg[b].ops)
  {
    var w := ThreadRewriting(cfg, b);
    if !w.Lead? then cfg
    else if !StaysItself(cfg, b, w) then Redirect(cfg, b, w.y, w.blk, w.add)
    else
      RedirectCode(cfg, b, w.y, w.blk, w.add);
      Redirect(cfg, b, w.y, w.blk, w.add)
  }

  /** A branch on a variable: its jump is led ahead, then what it falls to is looked at. (What is done after the block
      itself has been joined to another one is not modelled.) */
  function BranchOptimize(cfg: Cfg, b: nat): (r: Cfg)
    requires b < |cfg| && Last(cfg[b]).CondJmp?
    ensures |r| == |cfg|
  {
    if StaysItself(cfg, b, ThreadRewriting(cfg, b)) then FuseNext(SkipAll(Threaded(cfg, b), b), b) else Threaded(cfg, b)
  }

  function ZeroNext(cfg: Cfg, b: nat): (r: Cfg)
    requires b < |cfg|
    ensures |r| == |cfg|
  {
    if Last(cfg[b]).JmpZnz? then Apply(cfg, b, ZeroRewriting(cfg, b)) else cfg
  }

  function JmpOptimize(cfg: Cfg, b: nat): (r: Cfg)
    requires b < |cfg|
    ensures |r| == |cfg|
  {
    var blk, op := cfg[b], Last(cfg[b]);
    if op.Jmp? && 0 <= blk.op1To < |cfg| then Apply(cfg, b, JumpRewriting(cfg, b))
    else if op.CondJmp? && op.cond.Const? && 0 <= blk.op2To < |cfg| && 0 <= blk.followTo < |cfg| then
      Apply(cfg, b, ConstRewriting(cfg, b))
    else if op.CondJmp? && !op.cond.Const? then BranchOptimize(cfg, b)
    else if op.JmpZnz? && 0 <= blk.op2To < |cfg| && 0 <= blk.extTo < |cfg| then
      ZeroNext(Apply(cfg, b, SplitRewriting(cfg, b)), b)
    else cfg
  }

  /** Every rewriting from the loop on that steps over blocks of NOPs is safe. */
  predicate SteadyFollow(cfg: Cfg, root: int, b: nat)
    requires b < |cfg| && Last(cfg[b]).CondJmp? && |cfg[b].ops| > 0
    decreases |cfg| - cfg[b].followTo
  {
    var w := SkipRewriting(cfg, b);
    if w.Lead? then
      Safe(cfg, root, b, w) && (SkipCode(cfg, b); SteadyFollow(Apply(cfg, b, w), root, b))
    else Safe(cfg, root, b, FuseRewriting(cfg, b))
  }

  predicate SteadyBranch(cfg: Cfg, root: int, b: nat)
    requires b < |cfg| && Last(cfg[b]).CondJmp?
  {
    Safe(cfg, root, b, ThreadRewriting(cfg, b)) && (SafeStays(cfg, root, b); SteadyFollow(Threaded(cfg, b), root, b))
  }

  lemma SafeStays(cfg: Cfg, root: int, b: nat)
    requires b < |cfg| && Last(cfg[b]).CondJmp? && Safe(cfg, root, b, ThreadRewriting(cfg, b))
    ensures StaysItself(cfg, b, ThreadRewriting(cfg, b))
    ensures Threaded(cfg, b)[b].ops == cfg[b].ops && Last(Threaded(cfg, b)[b]).CondJmp? && |cfg[b].ops| > 0
  {
  }

  /** Every rewriting that the call for block b makes is safe. */
  predicate Steady(cfg: Cfg, root: int, b: nat)
    requires b < |cfg|
  {
    var blk, op := cfg[b], Last(cfg[b]);
    if op.Jmp? && 0 <= blk.op1To < |cfg| then Safe(cfg, root, b, JumpRewriting(cfg, b))
    else if op.CondJmp? && op.cond.Const? && 0 <= blk.op2To < |cfg| && 0 <= blk.followTo < |cfg| then
      Safe(cfg, root, b, ConstRewriting(cfg, b))
    else if op.CondJmp? && !op.cond.Const? then SteadyBranch(cfg, root, b)
    else if op.JmpZnz? && 0 <= blk.op2To < |cfg| && 0 <= blk.extTo < |cfg| then
      && Safe(cfg, root, b, SplitRewriting(cfg, b))
      && (SplitRewriting(cfg, b).Leave? ==> Safe(cfg, root, b, ZeroRewriting(cfg, b)))
    else true
  }

  /** What zend_jmp_optimization relies on when it is called for block b: each rewriting that it makes is safe, and
      what a JMPZNZ takes for a second test of its variable is one. */
  predicate Tame(cfg: Cfg, root: int, b: nat)
    requires b < |cfg|
  {
    && Steady(cfg, root, b)
    && (Last(cfg[b]).JmpZnz? && 0 <= cfg[b].op2To < |cfg| && 0 <= cfg[b].extTo < |cfg|
          && SplitRewriting(cfg, b).Leave? ==>
          NoMistake(cfg, b))
  }

  /** The entry after the call: its successor if the entry itself was deleted. */
  function RootAfterCall(cfg: Cfg, root: int, b: nat): int
    requires b < |cfg|
  {
    if Last(cfg[b]).Jmp? && 0 <= cfg[b].op1To < |cfg| then RootOf(cfg, root, b, JumpRewriting(cfg, b)) else root
  }

  /** A redirected block is still there, with its new code. */
  lemma LeadKeepsBlock(env: Env, cfg: Cfg, root: int, b: nat, w: Rewriting)
    requires Good(env, cfg, root, b, w) && w.Lead? && |cfg[b].ops| > 0
    ensures w.y < |cfg| && Live(Apply(cfg, b, w), b) && SameCode(Apply(cfg, b, w)[b], w.blk)
  {
    RedirectBlocks(cfg, root, b, w.y, w.blk, w.add);
    RedirectCode(cfg, b, w.y, w.blk, w.add);
  }

  lemma {:induction false} SkipAllPreserves(env: Env, cfg: Cfg, root: int, b: nat)
    requires Wf(cfg, root) && Live(cfg, b) && Last(cfg[b]).CondJmp? && |cfg[b].ops| > 0 && SteadyFollow(cfg, root, b)
    ensures var r := SkipAll(cfg, b);
      && Keeps(env, cfg, root, r, root) && Live(r, b) && Safe(r, root, b, FuseRewriting(r, b))
    decreases |cfg| - cfg[b].followTo
  {
    var w := SkipRewriting(cfg, b);
    if w.Lead? {
      SkipGood(env, cfg, root, b);
      ApplyPreserves(env, cfg, root, b, w);
      LeadKeepsBlock(env, cfg, root, b, w);
      SkipAllPreserves(env, Apply(cfg, b, w), root, b);
    }
  }

  lemma FollowPreserves(env: Env, cfg: Cfg, root: int, b: nat)
    requires Wf(cfg, root) && Live(cfg, b) && Last(cfg[b]).CondJmp? && |cfg[b].ops| > 0 && SteadyFollow(cfg, root, b)
    ensures var r := FuseNext(SkipAll(cfg, b), b); Keeps(env, cfg, root, r, root)
  {
    SkipAllPreserves(env, cfg, root, b);
    var r := SkipAll(cfg, b);
    FuseGood(env, r, root, b);
    ApplyPreserves(env, r, root, b, FuseRewriting(r, b));
  }

  lemma ThreadPreserves(env: Env, cfg: Cfg, root: int, b: nat)
    requires Wf(cfg, root) && Live(cfg, b) && Last(cfg[b]).CondJmp? && |cfg[b].ops| > 0
    requires Safe(cfg, root, b, ThreadRewriting(cfg, b))
    ensures Keeps(env, cfg, root, Threaded(cfg, b), root) && Live(Threaded(cfg, b), b)
  {
    var w := ThreadRewriting(cfg, b);
    ThreadGood(env, cfg, root, b);
    ApplyPreserves(env, cfg, root, b, w);
    if w.Lead? {
      LeadKeepsBlock(env, cfg, root, b, w);
    }
  }

  lemma KeepsTrans(env: Env, a: Cfg, r1: int, b: Cfg, r2: int, c: Cfg, r3: int)
    requires Keeps(env, a, r1, b, r2) && Keeps(env, b, r2, c, r3)
    ensures Keeps(env, a, r1, c, r3)
  {
  }

  lemma BranchOptimizePreserves(env: Env, cfg: Cfg, root: int, b: nat)
    requires Wf(cfg, root) && Live(cfg, b) && Last(cfg[b]).CondJmp? && |cfg[b].ops| > 0
    requires SteadyBranch(cfg, root, b)
    ensures Keeps(env, cfg, root, BranchOptimize(cfg, b), root)
  {
    var t := Threaded(cfg, b);
    SafeStays(cfg, root, b);
    ThreadPreserves(env, cfg, root, b);
    FollowPreserves(env, t, root, b);
    KeepsTrans(env, cfg, root, t, root, FuseNext(SkipAll(t, b), b), root);
  }

  lemma BranchPreserves(env: Env, cfg: Cfg, root: int, b: nat)
    requires Wf(cfg, root) && Live(cfg, b) && Tame(cfg, root, b) && Last(cfg[b]).CondJmp?
    ensures Keeps(env, cfg, root, JmpOptimize(cfg, b), root)
  {
    LastIsReal(cfg, root, b);
    LedTo(cfg, root, b, cfg[b].op2To);
    LedTo(cfg, root, b, cfg[b].followTo);
    if Last(cfg[b]).cond.Const? {
      ConstSensible(env, cfg, root, b);
      ApplyPreserves(env, cfg, root, b, ConstRewriting(cfg, b));
    } else {
      BranchOptimizePreserves(env, cfg, root, b);
    }
  }

  lemma SplitKeepsBlock(cfg: Cfg, root: int, b: nat)
    requires Wf(cfg, root) && Live(cfg, b) && Last(cfg[b]).JmpZnz? && 0 <= cfg[b].op2To < |cfg|
    requires 0 <= cfg[b].extTo < |cfg|
    ensures var w := SplitRewriting(cfg, b);
      if w.Leave? then cfg[b].op2To != cfg[b].extTo else !Last(Apply(cfg, b, w)[b]).JmpZnz?
  {
    var w := SplitRewriting(cfg, b);
    if w.Lead? {
      LedTo(cfg, root, b, w.y);
      if w.y == b && FateOf(cfg, b, b) != Kept {
        SelfGone(cfg, b, w.blk, w.add);
      } else {
        RedirectCode(cfg, b, w.y, w.blk, w.add);
      }
    }
  }

  lemma ZnzPreserves(env: Env, cfg: Cfg, root: int, b: nat)
    requires Wf(cfg, root) && Live(cfg, b) && Tame(cfg, root, b) && Last(cfg[b]).JmpZnz?
    ensures Keeps(env, cfg, root, JmpOptimize(cfg, b), root)
  {
    LastIsReal(cfg, root, b);
    LedTo(cfg, root, b, cfg[b].op2To);
    LedTo(cfg, root, b, cfg[b].extTo);
    var w := SplitRewriting(cfg, b);
    SplitKeepsBlock(cfg, root, b);
    if w.Leave? {
      ZeroGood(env, cfg, root, b);
      ApplyPreserves(env, cfg, root, b, ZeroRewriting(cfg, b));
    } else {
      SplitGood(env, cfg, root, b);
      ApplyPreserves(env, cfg, root, b, w);
    }
  }

  /** A call of zend_jmp_optimization keeps the invariant, assembly's fall-through condition among it, and
      changes no run. */
  lemma JmpOptimizePreserves(env: Env, cfg: Cfg, root: int, b: nat)
    requires Wf(cfg, root) && Live(cfg, b) && Tame(cfg, root, b)
    ensures var r, root2 := JmpOptimize(cfg, b), RootAfterCall(cfg, root, b);
      Keeps(env, cfg, root, r, root2)
  {
    var op := Last(cfg[b]);
    assert Shaped(cfg[b]);
    if op.Jmp? {
      LedTo(cfg, root, b, cfg[b].op1To);
      JumpGood(env, cfg, root, b);
      ApplyPreserves(env, cfg, root, b, JumpRewriting(cfg, b));
    } else if op.CondJmp? {
      BranchPreserves(env, cfg, root, b);
    } else if op.JmpZnz? {
      ZnzPreserves(env, cfg, root, b);
    }
  }

  // ---- and exactly when it does

  lemma EmptyIsNotShaped(cfg: Cfg, root: int, b: nat)
    requires Live(cfg, b) && cfg[b].ops == []
    ensures !Wf(cfg, root)
  {
    assert !Shaped(cfg[b]);
  }

  /** A jump that becomes nothing leaves the graph in order exactly if its block may go with it. */
  lemma DropExact(env: Env, cfg: Cfg, root: int, b: nat, to: nat)
    requires Wf(cfg, root) && Live(cfg, b) && Last(cfg[b]).Jmp? && cfg[b].op1To == to && Falls(cfg, b, to)
    ensures |cfg[b].ops| > 0
    ensures (Wf(Apply(cfg, b, DropJump(to)), RootOf(cfg, root, b, DropJump(to))) <==> Safe(cfg, root, b, DropJump(to)))
  {
    LastIsReal(cfg, root, b);
    var w := DropJump(to);
    if Safe(cfg, root, b, w) {
      ApplyPreserves(env, cfg, root, b, w);
    } else {
      EmptyIsNotShaped(Apply(cfg, b, w), RootOf(cfg, root, b, w), b);
    }
  }

  /** Block b is still there and the graph in order. */
  ghost predicate InOrder(cfg: Cfg, root: int, b: nat) { Wf(cfg, root) && Live(cfg, b) }

  lemma LeadExact(cfg: Cfg, root: int, b: nat, w: Rewriting)
    requires InOrder(cfg, root, b) && w.Lead? && |cfg[b].ops| > 0 && Sensible(cfg, root, b, w.y, w.blk, w.add)
    ensures w.y < |cfg| && (InOrder(Apply(cfg, b, w), root, b) <==> Safe(cfg, root, b, w))
  {
    RedirectExact(cfg, root, b, w.y, w.blk, w.add);
  }

  ghost predicate FollowInOrder(cfg: Cfg, root: int, b: nat)
    requires b < |cfg| && Last(cfg[b]).CondJmp? && |cfg[b].ops| > 0
    decreases |cfg| - cfg[b].followTo
  {
    var w := SkipRewriting(cfg, b);
    if w.Lead? then
      (SkipCode(cfg, b); FollowInOrder(Apply(cfg, b, w), root, b)) && InOrder(Apply(cfg, b, w), root, b)
    else InOrder(FuseNext(cfg, b), root, b)
  }

  /** The graph is in order after every rewriting of the call. */
  ghost predicate CallInOrder(cfg: Cfg, root: int, b: nat)
    requires b < |cfg|
  {
    var blk, op := cfg[b], Last(cfg[b]);
    if op.Jmp? && 0 <= blk.op1To < |cfg| then Wf(JmpOptimize(cfg, b), RootAfterCall(cfg, root, b))
    else if op.CondJmp? && op.cond.Const? && 0 <= blk.op2To < |cfg| && 0 <= blk.followTo < |cfg| then
      InOrder(JmpOptimize(cfg, b), root, b)
    else if op.CondJmp? && !op.cond.Const? then
      var t := Threaded(cfg, b);
      InOrder(t, root, b) && (Last(t[b]).CondJmp? && |t[b].ops| > 0 ==> FollowInOrder(t, root, b))
    else if op.JmpZnz? && 0 <= blk.op2To < |cfg| && 0 <= blk.extTo < |cfg| then InOrder(JmpOptimize(cfg, b), root, b)
    else true
  }

  lemma FuseExact(cfg: Cfg, root: int, b: nat)
    requires InOrder(cfg, root, b) && Last(cfg[b]).CondJmp? && |cfg[b].ops| > 0
    ensures InOrder(FuseNext(cfg, b), root, b) <==> Safe(cfg, root, b, FuseRewriting(cfg, b))
  {
    FuseSensible(cfg, root, b);
    if FuseRewriting(cfg, b).Lead? {
      LeadExact(cfg, root, b, FuseRewriting(cfg, b));
    }
  }

  lemma SkipExact(cfg: Cfg, root: int, b: nat)
    requires InOrder(cfg, root, b) && Last(cfg[b]).CondJmp? && |cfg[b].ops| > 0 && SkipRewriting(cfg, b).Lead?
    ensures InOrder(Apply(cfg, b, SkipRewriting(cfg, b)), root, b) <==> Safe(cfg, root, b, SkipRewriting(cfg, b))
  {
    SkipSensible(cfg, root, b);
    LeadExact(cfg, root, b, SkipRewriting(cfg, b));
  }

  lemma {:induction false} FollowExact(cfg: Cfg, root: int, b: nat)
    requires InOrder(cfg, root, b) && Last(cfg[b]).CondJmp? && |cfg[b].ops| > 0
    ensures FollowInOrder(cfg, root, b) <==> SteadyFollow(cfg, root, b)
    decreases |cfg| - cfg[b].followTo
  {
    var w := SkipRewriting(cfg, b);
    if w.Lead? {
      SkipExact(cfg, root, b);
      SkipCode(cfg, b);
      if Safe(cfg, root, b, w) {
        FollowExact(Apply(cfg, b, w), root, b);
      }
    } else {
      FuseExact(cfg, root, b);
    }
  }

  lemma ThreadExact(cfg: Cfg, root: int, b: nat)
    requires InOrder(cfg, root, b) && Last(cfg[b]).CondJmp? && |cfg[b].ops| > 0
    ensures InOrder(Threaded(cfg, b), root, b) <==> Safe(cfg, root, b, ThreadRewriting(cfg, b))
  {
    ThreadSensible(cfg, root, b);
    if ThreadRewriting(cfg, b).Lead? {
      LeadExact(cfg, root, b, ThreadRewriting(cfg, b));
    }
  }

  lemma JumpExact(env: Env, cfg: Cfg, root: int, b: nat)
    requires InOrder(cfg, root, b) && Last(cfg[b]).Jmp? && 0 <= cfg[b].op1To < |cfg|
    ensures Wf(JmpOptimize(cfg, b), RootAfterCall(cfg, root, b)) <==> Safe(cfg, root, b, JumpRewriting(cfg, b))
  {
    LastIsReal(cfg, root, b);
    JumpFits(cfg, root, b);
    var w := JumpRewriting(cfg, b);
    match w
    case Lead(y, blk, add) => JumpLeadExact(cfg, root, b, y, blk, add);
    case DropJump(to) => DropExact(env, cfg, root, b, to);
    case _ =>
  }

  lemma JumpLeadExact(cfg: Cfg, root: int, b: nat, y: nat, blk: Block, add: Block)
    requires InOrder(cfg, root, b) && Last(cfg[b]).Jmp? && 0 <= cfg[b].op1To < |cfg|
    requires JumpRewriting(cfg, b) == Lead(y, blk, add)
    ensures Wf(Redirect(cfg, b, y, blk, add), root) <==> Safe(cfg, root, b, Lead(y, blk, add))
  {
    JumpFits(cfg, root, b);
    JumpSafe(cfg, root, b);
    if Safe(cfg, root, b, Lead(y, blk, add)) {
      RedirectExact(cfg, root, b, y, blk, add);
    } else {
      NotKeptIsGone(cfg, root, b, y, blk, add);
    }
  }

  lemma ZnzExact(env: Env, cfg: Cfg, root: int, b: nat)
    requires InOrder(cfg, root, b) && Last(cfg[b]).JmpZnz? && 0 <= cfg[b].op2To < |cfg| && 0 <= cfg[b].extTo < |cfg|
    ensures InOrder(JmpOptimize(cfg, b), root, b) <==>
      && Safe(cfg, root, b, SplitRewriting(cfg, b))
      && (SplitRewriting(cfg, b).Leave? ==> Safe(cfg, root, b, ZeroRewriting(cfg, b)))
  {
    LastIsReal(cfg, root, b);
    var w := SplitRewriting(cfg, b);
    SplitSensible(env, cfg, root, b);
    SplitKeepsBlock(cfg, root, b);
    if w.Lead? {
      LeadExact(cfg, root, b, w);
    } else if w.Recode? {
      SplitGood(env, cfg, root, b);
      ApplyPreserves(env, cfg, root, b, w);
    } else if w.Leave? {
      ZeroSensible(cfg, root, b);
      if ZeroRewriting(cfg, b).Lead? {
        LeadExact(cfg, root, b, ZeroRewriting(cfg, b));
      }
    }
  }

  lemma ConstExact(env: Env, cfg: Cfg, root: int, b: nat)
    requires InOrder(cfg, root, b) && Last(cfg[b]).CondJmp? && Last(cfg[b]).cond.Const?
    requires 0 <= cfg[b].op2To < |cfg| && 0 <= cfg[b].followTo < |cfg|
    ensures InOrder(JmpOptimize(cfg, b), root, b) <==> Safe(cfg, root, b, ConstRewriting(cfg, b))
  {
    LastIsReal(cfg, root, b);
    ConstSensible(env, cfg, root, b);
    LeadExact(cfg, root, b, ConstRewriting(cfg, b));
  }

  lemma BranchExact(cfg: Cfg, root: int, b: nat)
    requires InOrder(cfg, root, b) && Last(cfg[b]).CondJmp? && !Last(cfg[b]).cond.Const?
    ensures CallInOrder(cfg, root, b) <==> Steady(cfg, root, b)
  {
    LastIsReal(cfg, root, b);
    ThreadExact(cfg, root, b);
    if Safe(cfg, root, b, ThreadRewriting(cfg, b)) {
      SafeStays(cfg, root, b);
      FollowExact(Threaded(cfg, b), root, b);
    }
  }

  /** A call leaves the graph in order at each of its rewritings exactly if they are all safe. */
  lemma CallExact(env: Env, cfg: Cfg, root: int, b: nat)
    requires InOrder(cfg, root, b)
    ensures CallInOrder(cfg, root, b) <==> Steady(cfg, root, b)
  {
    var op := Last(cfg[b]);
    assert Shaped(cfg[b]);
    if op.Jmp? {
      LedTo(cfg, root, b, cfg[b].op1To);
      JumpExact(env, cfg, root, b);
    } else if op.CondJmp? && op.cond.Const? {
      LedTo(cfg, root, b, cfg[b].op2To);
      LedTo(cfg, root, b, cfg[b].followTo);
      ConstExact(env, cfg, root, b);
    } else if op.CondJmp? {
      BranchExact(cfg, root, b);
    } else if op.JmpZnz? {
      LedTo(cfg, root, b, cfg[b].op2To);
      LedTo(cfg, root, b, cfg[b].extTo);
      ZnzExact(env, cfg, root, b);
    }
  }
}
