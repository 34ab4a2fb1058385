/** The control flow graph of the block pass: its blocks, what running it means, and the invariant
    that the pass relies on. A block is named by the number of its first op, as in the array blocks[];
    -1 is NULL. List order (the next pointers) is the order of these numbers. */
module Cfgs {
  import opened Simulation
  import opened Machine

  datatype Block = Block(access: bool, ops: seq<Op>, op1To: int, op2To: int, extTo: int, followTo: int,
                         sources: seq<nat>, protected: bool)
  type Cfg = seq<Block>

  // ---- running a graph

  datatype Branch = Fall | ToOp1 | ToOp2 | ToExt | Stop

  /** What one op does, and which way out of the block it takes if it is the last. */
  function Perform(env: Env, op: Op, m: Store, trace: seq<Event>): (Branch, Store, seq<Event>) {
    var s := State(0, m, trace, false);
    match op
    case Nop => (Fall, m, trace)
    case Jmp(_) => (ToOp1, m, trace)
    case CondJmp(nz, x, _) => (if Truthy(Read(env, s, x)) == nz then ToOp2 else Fall, m, trace)
    case CondJmpEx(nz, x, _, r) =>
      var v := Read(env, s, x);
      (if Truthy(v) == nz then ToOp2 else Fall, Write(m, r, ToBool(v)), trace)
    case JmpZnz(x, _, _) => (if Truthy(Read(env, s, x)) then ToExt else ToOp2, m, trace)
    case QmAssign(x, r) => (Fall, Write(m, r, Read(env, s, x)), trace)
    case Bool(x, r) => (Fall, Write(m, r, ToBool(Read(env, s, x))), trace)
    case Brk(_, _) => (Stop, m, trace + [BadBreak])
    case Cont(_, _) => (Stop, m, trace + [BadBreak])
    case Return(x) => (Stop, m, trace + [Returned(ArgOf(m, x))])
    case Exec(_, _, _, _, r) =>
      var t := trace + [RunEvent(m, op)];
      match env.outcome(t)
      case Normal(v) => (Fall, Write(m, r, v), t)
      case Throws => (Stop, m, t + [Uncaught])
  }

  /** Control at op off of block b; past the last op it is about to fall through. */
  datatype CState = CState(b: int, off: nat, temps: Store, trace: seq<Event>, done: bool)

  function Way(blk: Block, br: Branch): int {
    match br
    case ToOp1 => blk.op1To
    case ToOp2 => blk.op2To
    case ToExt => blk.extTo
    case _ => blk.followTo
  }

  /** A step of block blk, which stands at s.b. */
  function BlockStep(env: Env, blk: Block, s: CState): CState {
    if s.off >= |blk.ops| then s.(b := blk.followTo, off := 0)
    else
      var (br, m, t) := Perform(env, blk.ops[s.off], s.temps, s.trace);
      if br.Stop? then CState(-1, 0, m, t, true)
      else if br.Fall? && s.off + 1 < |blk.ops| then CState(s.b, s.off + 1, m, t, false)
      else CState(Way(blk, br), 0, m, t, false)
  }

  function CStep(env: Env, cfg: Cfg, s: CState): CState {
    if s.done then s
    else if !(0 <= s.b < |cfg|) then s.(trace := s.trace + [OffEnd], done := true)
    else BlockStep(env, cfg[s.b], s)
  }

  function CStepper(env: Env, cfg: Cfg): CState -> CState { s => CStep(env, cfg, s) }
  function CObserve(): CState -> Obs<Event> { (s: CState) => Obs(s.trace, s.done) }
  function Enter(b: int): CState { CState(b, 0, map[], [], false) }

  ghost function CRuns(env: Env, cfg: Cfg, root: int): iset<Obs<Event>> {
    Behaviour(CStepper(env, cfg), CObserve(), Enter(root))
  }

  lemma PerformGrows(env: Env, op: Op, m: Store, trace: seq<Event>)
    ensures trace <= Perform(env, op, m, trace).2
  {
  }

  lemma CfgLawful(env: Env, cfg: Cfg)
    ensures Lawful(CStepper(env, cfg), CObserve())
  {
    forall s: CState ensures s.trace <= CStep(env, cfg, s).trace {
      if !s.done && 0 <= s.b < |cfg| && s.off < |cfg[s.b].ops| {
        PerformGrows(env, cfg[s.b].ops[s.off], s.temps, s.trace);
      }
    }
  }

  /** u is reached from s by some positive number of steps. */
  ghost predicate Leads(env: Env, cfg: Cfg, s: CState, u: CState) {
    exists k: nat :: k >= 1 && Run(CStepper(env, cfg), s, k) == u
  }

  lemma LeadsStep(env: Env, cfg: Cfg, s: CState)
    ensures Leads(env, cfg, s, CStep(env, cfg, s))
  {
    assert Run(CStepper(env, cfg), s, 1) == CStep(env, cfg, Run(CStepper(env, cfg), s, 0));
  }

  lemma LeadsTrans(env: Env, cfg: Cfg, s: CState, u: CState, v: CState)
    requires Leads(env, cfg, s, u) && Leads(env, cfg, u, v)
    ensures Leads(env, cfg, s, v)
  {
    var j: nat :| j >= 1 && Run(CStepper(env, cfg), s, j) == u;
    var k: nat :| k >= 1 && Run(CStepper(env, cfg), u, k) == v;
    RunAdd(CStepper(env, cfg), s, j, k);
  }

  // ---- well-formed graphs

  /** Ends no block: control goes on to the next op. */
  predicate Plain(op: Op) { op.Nop? || op.QmAssign? || op.Bool? || op.Exec? }

  predicate NopOnly(blk: Block) { forall i {:trigger blk.ops[i]} :: 0 <= i < |blk.ops| ==> blk.ops[i].Nop? }

  /** The ways out of a block fit its last op. */
  predicate ExitsFit(blk: Block) {
    |blk.ops| > 0 &&
    match blk.ops[|blk.ops| - 1]
    case Jmp(_) => blk.op1To >= 0 && blk.op2To == -1 && blk.extTo == -1 && blk.followTo == -1
    case CondJmp(_, _, _) => blk.op1To == -1 && blk.op2To >= 0 && blk.extTo == -1 && blk.followTo >= 0
    case CondJmpEx(_, _, _, _) => blk.op1To == -1 && blk.op2To >= 0 && blk.extTo == -1 && blk.followTo >= 0
    case JmpZnz(_, _, _) => blk.op1To == -1 && blk.op2To >= 0 && blk.extTo >= 0 && blk.followTo == -1
    case Return(_) => blk.op1To == -1 && blk.op2To == -1 && blk.extTo == -1 && blk.followTo == -1
    case Brk(_, _) => false
    case Cont(_, _) => false
    case _ => blk.op1To == -1 && blk.op2To == -1 && blk.extTo == -1 && blk.followTo >= 0
  }

  predicate Shaped(blk: Block) {
    && ExitsFit(blk)
    && forall i {:trigger blk.ops[i]} :: 0 <= i < |blk.ops| - 1 ==> Plain(blk.ops[i])
  }

  predicate Edge(blk: Block, y: int) {
    y >= 0 && (blk.op1To == y || blk.op2To == y || blk.extTo == y || blk.followTo == y)
  }

  predicate Live(cfg: Cfg, x: int) { 0 <= x < |cfg| && cfg[x].access }

  /** In list order nothing but NOPs stands between accessible block x and y. */
  ghost predicate Falls(cfg: Cfg, x: int, y: int) {
    0 <= x < y && Live(cfg, y) && forall j {:trigger Live(cfg, j)} :: x < j < y && Live(cfg, j) ==> NopOnly(cfg[j])
  }

  ghost predicate NoDup(l: seq<nat>) { forall i, j :: 0 <= i < j < |l| ==> l[i] != l[j] }

  /** Among accessible blocks, the source lists are exactly the edges turned round. */
  ghost predicate SourcesExact(cfg: Cfg) {
    && (forall y {:trigger Live(cfg, y)} :: Live(cfg, y) ==> NoDup(cfg[y].sources))
    && (forall x, y {:trigger Edge(cfg[x], y)} :: Live(cfg, x) && Edge(cfg[x], y) ==>
          Live(cfg, y) && x in cfg[y].sources)
    && (forall x, y {:trigger x in cfg[y].sources} :: Live(cfg, x) && Live(cfg, y) && x in cfg[y].sources ==>
          Edge(cfg[x], y))
  }

  /** Accessible blocks are well formed and lead to accessible blocks, whose source lists say so; a block that
      falls through is followed, up to NOPs, by the block it falls to; and execution starts at root, with
      nothing but NOPs before it. */
  ghost predicate Wf(cfg: Cfg, root: int) {
    && (forall x {:trigger Live(cfg, x)} :: Live(cfg, x) ==> Shaped(cfg[x]))
    && SourcesExact(cfg)
    && (forall x {:trigger Live(cfg, x)} :: Live(cfg, x) && cfg[x].followTo >= 0 ==> Falls(cfg, x, cfg[x].followTo))
    && Live(cfg, root)
    && (forall j {:trigger Live(cfg, j)} :: j < root && Live(cfg, j) ==> NopOnly(cfg[j]))
  }

  // ---- what every rewriting keeps

  function OpsOf(cfg: Cfg, x: nat): nat
    requires x < |cfg|
  {
    if cfg[x].access then |cfg[x].ops| else 0
  }

  /** The number of ops in accessible blocks before n. */
  function Size(cfg: Cfg, n: nat): nat
    requires n <= |cfg|
  {
    if n == 0 then 0 else Size(cfg, n - 1) + OpsOf(cfg, n - 1)
  }

  /** Graph r, entered at root2, is well formed, has the same runs as cfg, entered at root, and no more ops. */
  ghost predicate Keeps(env: Env, cfg: Cfg, root: int, r: Cfg, root2: int) {
    Wf(r, root2) && CRuns(env, r, root2) == CRuns(env, cfg, root) && Size(r, |r|) <= Size(cfg, |cfg|)
  }

  lemma {:induction false} SizeLess(cfg: Cfg, r: Cfg, n: nat)
    requires |r| == |cfg| && n <= |cfg| && forall x: nat {:trigger OpsOf(r, x)} :: x < |cfg| ==>
      OpsOf(r, x) <= OpsOf(cfg, x)
    ensures Size(r, n) <= Size(cfg, n)
  {
    if n > 0 {
      SizeLess(cfg, r, n - 1);
      assert OpsOf(r, n - 1) <= OpsOf(cfg, n - 1);
    }
  }

  /** The ops of block y may have moved to block f. */
  lemma {:induction false} SizeMoved(cfg: Cfg, r: Cfg, f: nat, y: nat, n: nat)
    requires |r| == |cfg| && n <= |cfg| && f < |cfg| && y < |cfg| && f != y
    requires forall x: nat {:trigger OpsOf(r, x)} :: x < |cfg| && x != f ==> OpsOf(r, x) <= if x == y then 0
      else OpsOf(cfg, x)
    requires OpsOf(r, f) <= OpsOf(cfg, f) + OpsOf(cfg, y)
    ensures Size(r, n) + (if y < n then OpsOf(cfg, y) else 0) <= Size(cfg, n) + (if f < n then OpsOf(cfg, y) else 0)
  {
    if n > 0 {
      SizeMoved(cfg, r, f, y, n - 1);
      assert OpsOf(r, n - 1) <= if n - 1 == f then OpsOf(cfg, f) + OpsOf(cfg, y) else if n - 1 == y then 0
        else OpsOf(cfg, n - 1);
    }
  }

  // ---- the source lists

  /** DEL_SOURCE at the first entry for b. */
  function Without(l: seq<nat>, b: nat): (r: seq<nat>) {
    if l == [] then [] else if l[0] == b then l[1..] else [l[0]] + Without(l[1..], b)
  }

  /** replace_source: the entry for gone becomes one for kept, without repeating an entry. */
  function Replaced(l: seq<nat>, gone: nat, kept: nat): (r: seq<nat>) {
    if gone !in l then l
    else if kept in l then Without(l, gone)
    else seq(|l|, i requires 0 <= i < |l| => if l[i] == gone then kept else l[i])
  }

  lemma {:induction false} WithoutFacts(l: seq<nat>, b: nat)
    requires NoDup(l)
    ensures NoDup(Without(l, b)) && forall x: nat :: x in Without(l, b) <==> x in l && x != b
  {
    if l != [] {
      assert l == [l[0]] + l[1..];
      if l[0] != b {
        WithoutFacts(l[1..], b);
        var w := Without(l[1..], b);
        assert l[0] !in w;
        assert forall i :: 0 <= i < |w| ==> w[i] in w;
      }
    }
  }

  lemma ReplacedFacts(l: seq<nat>, gone: nat, kept: nat)
    requires NoDup(l) && gone != kept
    ensures NoDup(Replaced(l, gone, kept))
    ensures forall x: nat :: x in Replaced(l, gone, kept) <==> (x in l && x != gone) || (x == kept && gone in l)
  {
    if gone in l && kept in l {
      WithoutFacts(l, gone);
    } else if gone in l {
      var r := Replaced(l, gone, kept);
      forall x: nat ensures x in r <==> (x in l && x != gone) || x == kept {
        if x in l && x != gone {
          var i :| 0 <= i < |l| && l[i] == x;
          assert r[i] == x;
        }
        var g :| 0 <= g < |l| && l[g] == gone;
        assert r[g] == kept;
      }
    }
  }

  /** ADD_SOURCE */
  function AddSource(cfg: Cfg, from: nat, to: int): (r: Cfg)
    ensures |r| == |cfg|
  {
    if !(0 <= to < |cfg|) || from in cfg[to].sources then cfg
    else cfg[to := cfg[to].(sources := [from] + cfg[to].sources)]
  }

  function ReplaceIn(cfg: Cfg, at: int, gone: nat, kept: nat): (r: Cfg)
    ensures |r| == |cfg|
  {
    if !(0 <= at < |cfg|) then cfg else cfg[at := cfg[at].(sources := Replaced(cfg[at].sources, gone, kept))]
  }

  /** Everywhere to leads, block kept stands in for block gone. */
  function ReplaceAll(cfg: Cfg, to: Block, gone: nat, kept: nat): (r: Cfg)
    ensures |r| == |cfg|
  {
    ReplaceIn(ReplaceIn(ReplaceIn(ReplaceIn(cfg, to.op1To, gone, kept), to.op2To, gone, kept), to.extTo, gone, kept),
              to.followTo, gone, kept)
  }

  /** The block after which nothing else can come: it ends by falling to y and in no other way. */
  predicate OnlyFallsTo(blk: Block, y: int) {
    blk.access && blk.followTo == y && blk.op1To == -1 && blk.op2To == -1 && blk.extTo == -1
  }

  /** Join block y to f, its only source, which falls to it. */
  function Merge(cfg: Cfg, f: nat, y: nat): (r: Cfg)
    requires f < |cfg| && y < |cfg| && f != y
    ensures |r| == |cfg|
  {
    var to := cfg[y];
    var joined := cfg[f].(ops := cfg[f].ops + to.ops, followTo := to.followTo, op1To := to.op1To,
                          op2To := to.op2To, extTo := to.extTo);
    var cfg1 := cfg[y := to.(ops := [], access := false, sources := [])][f := joined];
    ReplaceAll(cfg1, to, y, f)
  }

  /** del_source: y loses the source b; without sources it is unused, and with one left that falls to it
      the two are joined. */
  function DelSource(cfg: Cfg, b: nat, y: nat): (r: Cfg)
    requires y < |cfg|
    ensures |r| == |cfg|
  {
    if cfg[y].sources == [] then cfg[y := cfg[y].(access := false)]
    else
      var left := Without(cfg[y].sources, b);
      var cfg1 := cfg[y := cfg[y].(sources := left)];
      if left == [] then cfg1[y := cfg1[y].(access := false)]
      else if !cfg[y].protected && |left| == 1 && left[0] < |cfg| && left[0] != y && OnlyFallsTo(cfg1[left[0]], y)
        then Merge(cfg1, left[0], y)
      else cfg1
  }
}
