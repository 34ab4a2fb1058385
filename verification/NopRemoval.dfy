/** Pass 10, nop_removal: compaction of the opcode array in place, with every op number remapped. */
module NopRemoval {
  import opened Simulation
  import opened Machine
  import opened OpArrays
  import opened LiveRanges

  /** Op i is a JMP forward over nothing but NOPs. */
  predicate JumpsOverNops(ops: seq<Op>, i: nat)
    requires i < |ops|
  {
    && ops[i].Jmp? && i < ops[i].target <= |ops|
    && forall k :: i < k < ops[i].target ==> ops[k].Nop?
  }

  function Kill(ops: seq<Op>): (r: seq<Op>)
    ensures |r| == |ops|
  {
    seq(|ops|, i requires 0 <= i < |ops| => if JumpsOverNops(ops, i) then Nop else ops[i])
  }

  /** How many of the first t ops survive: the number that op number t is renumbered to. */
  function Before(keep: seq<Op>, t: nat): (r: nat)
    requires t <= |keep|
    ensures r <= t
  {
    if t == 0 then 0 else Before(keep, t - 1) + if keep[t - 1].Nop? then 0 else 1
  }

  function Survivors(keep: seq<Op>, t: nat): (r: seq<Op>)
    requires t <= |keep|
    ensures |r| == Before(keep, t)
  {
    if t == 0 then [] else Survivors(keep, t - 1) + if keep[t - 1].Nop? then [] else [keep[t - 1]]
  }

  /** A number outside the array is left alone (there is none in well-formed code). */
  function Renumber(keep: seq<Op>, t: nat): nat { if t < |keep| then Before(keep, t) else t }

  function Retarget(keep: seq<Op>, op: Op): Op {
    match op
    case Jmp(t) => Jmp(Renumber(keep, t))
    case CondJmp(nz, x, t) => CondJmp(nz, x, Renumber(keep, t))
    case CondJmpEx(nz, x, t, r) => CondJmpEx(nz, x, Renumber(keep, t), r)
    case JmpZnz(x, z, n) => JmpZnz(x, Renumber(keep, z), Renumber(keep, n))
    case _ => op
  }

  function RetargetAll(keep: seq<Op>, ops: seq<Op>): (r: seq<Op>)
    ensures |r| == |ops|
  {
    seq(|ops|, i requires 0 <= i < |ops| => Retarget(keep, ops[i]))
  }

  predicate Linked(op: Op) { op.Exec? && op.result.Link? }

  /** The early binding list runs forward through the delayed class declarations. */
  ghost predicate LinksForward(ops: seq<Op>, first: int) {
    && (first == -1 || (0 <= first < |ops| && Linked(ops[first])))
    && forall i :: 0 <= i < |ops| && Linked(ops[i]) ==>
         var n := ops[i].result.next; n == -1 || (i < n < |ops| && Linked(ops[n]))
  }

  /** The number that a table entry is meant to get; one that is none of an op, like -1, stays as it is. */
  function Move(keep: seq<Op>, n: int): int {
    if 0 <= n < |keep| then Before(keep, n) else n
  }

  /** The early binding list from at on, with each link renumbered. */
  function Relink(keep: seq<Op>, ops: seq<Op>, at: int): (r: seq<Op>)
    requires |ops| == Before(keep, |keep|)
    ensures |r| == |ops|
    decreases |keep| - at
  {
    if !(0 <= at < |keep|) || Before(keep, at) >= |ops| then ops
    else
      var j := Before(keep, at);
      if !Linked(ops[j]) then ops
      else
        var n := ops[j].result.next;
        var r := ops[j := WithResult(ops[j], Link(Move(keep, n)))];
        if n <= at then r else Relink(keep, r, n)
  }

  function MoveBrkCont(keep: seq<Op>, t: seq<BrkCont>): (r: seq<BrkCont>)
    ensures |r| == |t|
  {
    seq(|t|, i requires 0 <= i < |t| =>
      BrkCont(Move(keep, t[i].start), Renumber(keep, t[i].cont), Renumber(keep, t[i].brk), t[i].parent))
  }

  function MoveTryCatch(keep: seq<Op>, t: seq<TryCatch>): (r: seq<TryCatch>)
    ensures |r| == |t|
  {
    seq(|t|, i requires 0 <= i < |t| => TryCatch(Renumber(keep, t[i].tryOp), Renumber(keep, t[i].catchOp)))
  }

  function Compacted(c: Code, keep: seq<Op>): Code {
    if Before(keep, |keep|) == |keep| then c
    else Code(
      Relink(keep, RetargetAll(keep, Survivors(keep, |keep|)), c.earlyBinding),
      MoveBrkCont(keep, c.brkCont),
      MoveTryCatch(keep, c.tryCatch),
      Move(keep, c.earlyBinding),
      c.temps)
  }

  /** What the pass is meant to make of c: every number follows its op. */
  function Removed(c: Code): Code { Compacted(c, Kill(c.ops)) }

  // ---- the starts of the loops, which need not be op numbers

  const WORD := 0x1_0000_0000
  const HALF := 0x8000_0000

  /** A number of 32 bits, kept in an int. */
  function AsInt(n: int): (r: int)
    ensures FitsInt(r)
  {
    if n % WORD < HALF then n % WORD else n % WORD - WORD
  }

  predicate FitsInt(n: int) { -HALF <= n < HALF }

  /** A start after the pass. The shift list is read at it even if it is not the number of an op; outside says what
      stands in memory there. */
  function MoveStart(keep: seq<Op>, n: int, outside: int -> nat): int {
    if 0 <= n < |keep| then Before(keep, n) else AsInt(n - outside(n))
  }

  function PatchAll(keep: seq<Op>, t: seq<BrkCont>, outside: int -> nat): (r: seq<BrkCont>)
    ensures |r| == |t|
  {
    seq(|t|, i requires 0 <= i < |t| =>
      BrkCont(MoveStart(keep, t[i].start, outside), Renumber(keep, t[i].cont), Renumber(keep, t[i].brk), t[i].parent))
  }

  /** Without NOPs the pass does nothing. */
  predicate NoneToRemove(c: Code) { Before(Kill(c.ops), |c.ops|) == |c.ops| }

  /** What the pass makes of c. */
  function RemovedWith(c: Code, outside: int -> nat): Code {
    if NoneToRemove(c) then c else Removed(c).(brkCont := PatchAll(Kill(c.ops), c.brkCont, outside))
  }

  /** Every start is the number of an op; that of a loop without a variable is -1. */
  predicate AllInside(n: nat, t: seq<BrkCont>) { forall i :: 0 <= i < |t| ==> 0 <= t[i].start < n }

  /** keep is ops with some forward jumps over nothing but NOPs made NOPs. */
  ghost predicate Killed(ops: seq<Op>, keep: seq<Op>) {
    && |keep| == |ops|
    && forall i :: 0 <= i < |ops| ==> keep[i] == ops[i] || (keep[i].Nop? && JumpsOverNops(ops, i))
  }

  /** What the simulation proof works with. */
  ghost predicate Ready(c: Code, keep: seq<Op>) {
    WellFormed(c) && Killed(c.ops, keep) && !keep[|keep| - 1].Nop?
  }

  // ---- facts about the renumbering

  lemma {:induction false} BeforeMonotone(keep: seq<Op>, s: nat, t: nat)
    requires s <= t <= |keep|
    ensures Before(keep, s) <= Before(keep, t) <= Before(keep, s) + (t - s)
    ensures s < t && !keep[s].Nop? ==> Before(keep, s) < Before(keep, t)
    ensures (forall k :: s <= k < t ==> keep[k].Nop?) ==> Before(keep, s) == Before(keep, t)
  {
    if s < t {
      BeforeMonotone(keep, s, t - 1);
    }
  }

  lemma {:induction false} SurvivorAt(keep: seq<Op>, i: nat, n: nat)
    requires i < n <= |keep| && !keep[i].Nop?
    ensures Before(keep, i) < |Survivors(keep, n)|
    ensures Survivors(keep, n)[Before(keep, i)] == keep[i]
  {
    if i == n - 1 {
    } else {
      SurvivorAt(keep, i, n - 1);
    }
  }

  /** Every new op is some surviving old op. */
  lemma {:induction false} SurvivorFrom(keep: seq<Op>, j: nat, n: nat) returns (i: nat)
    requires n <= |keep| && j < Before(keep, n)
    ensures i < n && !keep[i].Nop? && Before(keep, i) == j
  {
    if j < Before(keep, n - 1) {
      i := SurvivorFrom(keep, j, n - 1);
    } else {
      i := n - 1;
    }
  }

  /** Without NOPs nothing moves. */
  lemma NothingRemoved(keep: seq<Op>, t: nat)
    requires t <= |keep| && Before(keep, |keep|) == |keep|
    ensures Before(keep, t) == t
  {
    BeforeMonotone(keep, t, |keep|);
  }

  lemma {:induction false} AllSurvive(ops: seq<Op>, n: nat)
    requires n <= |ops| && Before(Kill(ops), |ops|) == |ops|
    ensures Survivors(Kill(ops), n) == ops[..n]
  {
    NothingRemoved(Kill(ops), n);
    if n > 0 {
      NothingRemoved(Kill(ops), n - 1);
      AllSurvive(ops, n - 1);
    }
  }

  // ---- the early binding list

  /** The op numbers on the list that starts at op number first. */
  ghost function BindingList(ops: seq<Op>, first: int): seq<int>
    requires LinksForward(ops, first)
    decreases if first == -1 then 0 else |ops| - first
  {
    if first == -1 then [] else [first] + BindingList(ops, ops[first].result.next)
  }

  function MoveAll(keep: seq<Op>, l: seq<int>): (r: seq<int>)
    ensures |r| == |l|
  {
    seq(|l|, i requires 0 <= i < |l| => Move(keep, l[i]))
  }

  /** Equal except for the number of the next delayed declaration, which running the op ignores. */
  predicate SameButLink(a: Op, b: Op) {
    a == b || (Linked(a) && Linked(b) && a == WithResult(b, a.result))
  }

  lemma {:induction false} RelinkKeeps(keep: seq<Op>, ops: seq<Op>, at: int, j: nat)
    requires |ops| == Before(keep, |keep|) && j < |ops|
    ensures SameButLink(Relink(keep, ops, at)[j], ops[j])
    ensures 0 <= at < |keep| && j < Before(keep, at) ==> Relink(keep, ops, at)[j] == ops[j]
    decreases |keep| - at
  {
    if 0 <= at < |keep| && Before(keep, at) < |ops| && Linked(ops[Before(keep, at)]) {
      var b := Before(keep, at);
      var n := ops[b].result.next;
      var r := ops[b := WithResult(ops[b], Link(Move(keep, n)))];
      if n > at {
        RelinkKeeps(keep, r, n, j);
        if n < |keep| {
          BeforeMonotone(keep, at, n);
        }
      }
    }
  }

  lemma RetargetIdentity(keep: seq<Op>, op: Op)
    requires Before(keep, |keep|) == |keep|
    ensures Retarget(keep, op) == op
  {
    forall t: nat | t < |keep| ensures Renumber(keep, t) == t {
      NothingRemoved(keep, t);
    }
  }

  /** c' is c with its surviving ops moved up and every op number moved with them. */
  ghost predicate Moved(c: Code, keep: seq<Op>, c': Code)
    requires |keep| == |c.ops|
  {
    && |c'.ops| == Before(keep, |keep|)
    && (forall i: nat {:trigger keep[i]} :: i < |keep| && !keep[i].Nop? ==>
          Before(keep, i) < |c'.ops| && SameButLink(c'.ops[Before(keep, i)], Retarget(keep, c.ops[i])))
    && |c'.brkCont| == |c.brkCont| && |c'.tryCatch| == |c.tryCatch|
    && (forall i {:trigger c.brkCont[i]} {:trigger c'.brkCont[i]} :: 0 <= i < |c.brkCont| ==>
          var b := c.brkCont[i];
          c'.brkCont[i] == BrkCont(Move(keep, b.start), Renumber(keep, b.cont), Renumber(keep, b.brk), b.parent))
    && (forall i {:trigger c.tryCatch[i]} {:trigger c'.tryCatch[i]} :: 0 <= i < |c.tryCatch| ==>
          var t := c.tryCatch[i];
          c'.tryCatch[i] == TryCatch(Renumber(keep, t.tryOp), Renumber(keep, t.catchOp)))
  }

  lemma OpMoved(c: Code, keep: seq<Op>, i: nat)
    requires |keep| == |c.ops| && i < |keep| && !keep[i].Nop? && keep[i] == c.ops[i]
    ensures var c' := Compacted(c, keep);
      Before(keep, i) < |c'.ops| && SameButLink(c'.ops[Before(keep, i)], Retarget(keep, c.ops[i]))
  {
    SurvivorAt(keep, i, |keep|);
    if Before(keep, |keep|) == |keep| {
      NothingRemoved(keep, i);
      RetargetIdentity(keep, c.ops[i]);
    } else {
      RelinkKeeps(keep, RetargetAll(keep, Survivors(keep, |keep|)), c.earlyBinding, Before(keep, i));
    }
  }

  lemma TablesIdentity(keep: seq<Op>, b: seq<BrkCont>, t: seq<TryCatch>)
    requires Before(keep, |keep|) == |keep|
    ensures MoveBrkCont(keep, b) == b && MoveTryCatch(keep, t) == t
  {
    forall t: nat | t <= |keep| ensures Before(keep, t) == t {
      NothingRemoved(keep, t);
    }
  }

  lemma CompactedMoved(c: Code, keep: seq<Op>)
    requires Ready(c, keep)
    ensures Moved(c, keep, Compacted(c, keep))
  {
    var c' := Compacted(c, keep);
    forall i: nat | i < |keep| && !keep[i].Nop?
      ensures Before(keep, i) < |c'.ops| && SameButLink(c'.ops[Before(keep, i)], Retarget(keep, c.ops[i]))
    {
      OpMoved(c, keep, i);
    }
    if Before(keep, |keep|) == |keep| {
      TablesIdentity(keep, c.brkCont, c.tryCatch);
    }
    assert c'.brkCont == MoveBrkCont(keep, c.brkCont) && c'.tryCatch == MoveTryCatch(keep, c.tryCatch);
  }

  // ---- the new code simulates the old

  /** The first surviving op at or after t. */
  function FirstLive(keep: seq<Op>, t: nat): (r: nat)
    requires t < |keep| && !keep[|keep| - 1].Nop?
    ensures t <= r < |keep| && !keep[r].Nop? && forall k :: t <= k < r ==> keep[k].Nop?
    decreases |keep| - t
  {
    if keep[t].Nop? then FirstLive(keep, t + 1) else t
  }

  /** The op that the break point of loop i comes to stand at is a FREE only if it was one. */
  ghost predicate Stable(c: Code, keep: seq<Op>, i: int)
    requires Ready(c, keep)
  {
    0 <= i < |c.brkCont| && IsFree(c.ops[FirstLive(keep, c.brkCont[i].brk)]) ==> IsFree(c.ops[c.brkCont[i].brk])
  }

  /** Op p is a BRK or CONT that leaves loop i on the way to the loop it ends at. */
  ghost predicate Leaves(c: Code, p: nat, i: int)
    requires p < |c.ops|
  {
    var op := c.ops[p];
    (op.Brk? || op.Cont?) && exists n: nat :: Ancestor(c, op.loop, n) == i && (op.levels.Const? ==> n + 1 < op.levels.v)
  }

  /** No break point of a loop that is left on the way is a removed op that stands right before a FREE. An n-level break
      looks at the op at the break point of each such loop, and must not find a FREE that was not there before. */
  ghost predicate BreakPointsStable(c: Code, keep: seq<Op>)
    requires Ready(c, keep)
  {
    forall p: nat, i {:trigger Leaves(c, p, i)} :: p < |c.ops| && Leaves(c, p, i) ==> Stable(c, keep, i)
  }

  /** An old op number becomes the number of the first surviving op at or after it. */
  lemma NumberMoved(c: Code, keep: seq<Op>, c': Code, t: nat)
    requires Ready(c, keep) && Moved(c, keep, c') && t < |keep|
    ensures var j := FirstLive(keep, t);
      && Before(keep, t) == Before(keep, j) < |c'.ops|
      && SameButLink(c'.ops[Before(keep, t)], Retarget(keep, c.ops[j]))
  {
    BeforeMonotone(keep, t, FirstLive(keep, t));
  }

  /** The loops left by a break out of that many levels are stable. */
  ghost predicate WayStable(c: Code, keep: seq<Op>, loop: int, levels: int)
    requires Ready(c, keep)
  {
    forall n: nat {:trigger Ancestor(c, loop, n)} :: n + 1 < levels ==> Stable(c, keep, Ancestor(c, loop, n))
  }

  lemma WayStableUp(c: Code, keep: seq<Op>, loop: int, levels: int)
    requires Ready(c, keep) && WayStable(c, keep, loop, levels) && 0 <= loop < |c.brkCont| && levels > 1
    ensures Stable(c, keep, loop) && WayStable(c, keep, c.brkCont[loop].parent, levels - 1)
  {
    assert Ancestor(c, loop, 0) == loop;
    forall n: nat | n + 1 < levels - 1 ensures Stable(c, keep, Ancestor(c, c.brkCont[loop].parent, n)) {
      assert Ancestor(c, loop, n + 1) == Ancestor(c, c.brkCont[loop].parent, n);
    }
  }

  lemma UnwindOneMoved(c: Code, keep: seq<Op>, c': Code, m: Store, trace: seq<Event>, loop: nat,
          levels: int) returns (freed: seq<Event>)
    requires Ready(c, keep) && Moved(c, keep, c') && loop < |c.brkCont| && levels > 1 && Stable(c, keep, loop)
    ensures Unwind(c, m, trace, loop, levels) == Unwind(c, m, freed, c.brkCont[loop].parent, levels - 1)
    ensures Unwind(c', m, trace, loop, levels) == Unwind(c', m, freed, c.brkCont[loop].parent, levels - 1)
  {
    var b := c.brkCont[loop].brk;
    NumberMoved(c, keep, c', b);
    freed := if IsFree(c.ops[b]) then trace + [RunEvent(m, c.ops[b])] else trace;
  }

  lemma {:induction false} UnwindMoved(c: Code, keep: seq<Op>, c': Code, m: Store, trace: seq<Event>, loop: int,
          levels: int)
    requires Ready(c, keep) && Moved(c, keep, c') && WayStable(c, keep, loop, levels)
    ensures Unwind(c', m, trace, loop, levels) == Unwind(c, m, trace, loop, levels)
    decreases levels
  {
    if 0 <= loop < |c.brkCont| && levels > 1 {
      WayStableUp(c, keep, loop, levels);
      var freed := UnwindOneMoved(c, keep, c', m, trace, loop, levels);
      UnwindMoved(c, keep, c', m, freed, c.brkCont[loop].parent, levels - 1);
    }
  }

  lemma BreakIsStable(c: Code, keep: seq<Op>, p: nat, levels: int)
    requires Ready(c, keep) && BreakPointsStable(c, keep) && p < |c.ops| && (c.ops[p].Brk? || c.ops[p].Cont?)
    requires c.ops[p].levels.Const? ==> levels == c.ops[p].levels.v
    ensures WayStable(c, keep, c.ops[p].loop, levels)
  {
    forall n: nat | n + 1 < levels ensures Stable(c, keep, Ancestor(c, c.ops[p].loop, n)) {
      assert Leaves(c, p, Ancestor(c, c.ops[p].loop, n));
    }
  }

  /** Op p, for any number of levels that it may read, frees the same and ends at the same loop. */
  ghost predicate BreakAgrees(c: Code, c': Code, p: nat)
    requires p < |c.ops|
  {
    var op := c.ops[p];
    (op.Brk? || op.Cont?) ==>
      forall m: Store, trace: seq<Event>, levels: int {:trigger Unwind(c, m, trace, op.loop, levels)} ::
        (op.levels.Const? ==> levels == op.levels.v) ==>
        Unwind(c', m, trace, op.loop, levels) == Unwind(c, m, trace, op.loop, levels)
  }

  /** There is a variable to free at the break point of loop i. */
  predicate Freeing(c: Code, i: nat)
    requires i < |c.brkCont|
  {
    c.brkCont[i].brk < |c.ops| && IsFree(c.ops[c.brkCont[i].brk])
  }

  /** The loops nest in the same way, and no break point has lost its variable. */
  ghost predicate FreesMore(c: Code, c': Code) {
    |c'.brkCont| == |c.brkCont| && forall i: nat {:trigger Freeing(c, i)} :: i < |c.brkCont| ==>
      c'.brkCont[i].parent == c.brkCont[i].parent && (Freeing(c, i) ==> Freeing(c', i))
  }

  /** Leaving one loop. */
  lemma UnwindOne(c: Code, m: Store, trace: seq<Event>, loop: nat, levels: int) returns (freed: seq<Event>)
    requires loop < |c.brkCont| && levels > 1
    ensures Unwind(c, m, trace, loop, levels) == Unwind(c, m, freed, c.brkCont[loop].parent, levels - 1)
    ensures |freed| == |trace| + if Freeing(c, loop) then 1 else 0
  {
    var b := c.brkCont[loop].brk;
    freed := if b < |c.ops| && IsFree(c.ops[b]) then trace + [RunEvent(m, c.ops[b])] else trace;
  }

  /** On the way nothing is freed less. */
  lemma {:induction false} UnwindNotLess(c: Code, c': Code, m: Store, trace': seq<Event>, trace: seq<Event>, loop: int,
          levels: int)
    requires FreesMore(c, c') && |trace'| >= |trace|
    ensures |Unwind(c', m, trace', loop, levels).1| - |Unwind(c, m, trace, loop, levels).1| >= |trace'| - |trace|
    decreases levels
  {
    if 0 <= loop < |c.brkCont| && levels > 1 {
      var f' := UnwindOne(c', m, trace', loop, levels);
      var f := UnwindOne(c, m, trace, loop, levels);
      UnwindNotLess(c, c', m, f', f, c.brkCont[loop].parent, levels - 1);
    }
  }

  /** At a break point that has got one, something more is freed. */
  lemma {:induction false} UnwindMore(c: Code, c': Code, m: Store, trace': seq<Event>, trace: seq<Event>, loop: int,
          levels: int, n: nat, i: nat)
    requires FreesMore(c, c') && |trace'| >= |trace| && n + 1 < levels
    requires Ancestor(c, loop, n) == i < |c.brkCont| && Freeing(c', i) && !Freeing(c, i)
    ensures |Unwind(c', m, trace', loop, levels).1| > |Unwind(c, m, trace, loop, levels).1|
    decreases n
  {
    assert 0 <= loop < |c.brkCont|;
    var up := c.brkCont[loop].parent;
    var f' := UnwindOne(c', m, trace', loop, levels);
    var f := UnwindOne(c, m, trace, loop, levels);
    if n == 0 {
      UnwindNotLess(c, c', m, f', f, up, levels - 1);
    } else {
      UnwindMore(c, c', m, f', f, up, levels - 1, n - 1, i);
    }
  }

  lemma RemovalFreesMore(c: Code, keep: seq<Op>, c': Code)
    requires Ready(c, keep) && Moved(c, keep, c')
    ensures FreesMore(c, c') && forall i: nat {:trigger Freeing(c, i)} :: i < |c.brkCont| && !Stable(c, keep, i) ==>
      Freeing(c', i) && !Freeing(c, i)
  {
    forall i: nat | i < |c.brkCont|
      ensures c'.brkCont[i].parent == c.brkCont[i].parent && (Freeing(c, i) ==> Freeing(c', i))
      ensures !Stable(c, keep, i) ==> Freeing(c', i) && !Freeing(c, i)
    {
      FreeMoved(c, keep, c', i);
    }
  }

  lemma FreeMoved(c: Code, keep: seq<Op>, c': Code, loop: nat)
    requires Ready(c, keep) && Moved(c, keep, c') && loop < |c.brkCont|
    ensures c'.brkCont[loop].parent == c.brkCont[loop].parent && c'.brkCont[loop].brk < |c'.ops|
    ensures var free', free := IsFree(c'.ops[c'.brkCont[loop].brk]), IsFree(c.ops[c.brkCont[loop].brk]);
      (free ==> free') && (!Stable(c, keep, loop) ==> free' && !free)
  {
    NumberMoved(c, keep, c', c.brkCont[loop].brk);
  }

  lemma StableAgrees(c: Code, keep: seq<Op>, c': Code, p: nat)
    requires Ready(c, keep) && Moved(c, keep, c') && BreakPointsStable(c, keep) && p < |c.ops|
    ensures BreakAgrees(c, c', p)
  {
    var op := c.ops[p];
    if op.Brk? || op.Cont? {
      forall m: Store, trace: seq<Event>, levels: int | op.levels.Const? ==> levels == op.levels.v
        ensures Unwind(c', m, trace, op.loop, levels) == Unwind(c, m, trace, op.loop, levels)
      {
        BreakIsStable(c, keep, p, levels);
        UnwindMoved(c, keep, c', m, trace, op.loop, levels);
      }
    }
  }

  lemma UnstableDisagrees(c: Code, keep: seq<Op>, c': Code, p: nat, i: int)
    requires Ready(c, keep) && Moved(c, keep, c') && p < |c.ops| && Leaves(c, p, i) && !Stable(c, keep, i)
    ensures !BreakAgrees(c, c', p)
  {
    var op := c.ops[p];
    var n: nat :| Ancestor(c, op.loop, n) == i && (op.levels.Const? ==> n + 1 < op.levels.v);
    var levels := if op.levels.Const? then op.levels.v else n + 2;
    RemovalFreesMore(c, keep, c');
    assert Freeing(c', i) && !Freeing(c, i);
    UnwindMore(c, c', map[], [], [], op.loop, levels, n, i);
    assert Unwind(c', map[], [], op.loop, levels) != Unwind(c, map[], [], op.loop, levels);
  }

  ghost predicate AllBreaksAgree(c: Code, c': Code) {
    forall p: nat {:trigger BreakAgrees(c, c', p)} :: p < |c.ops| ==> BreakAgrees(c, c', p)
  }

  /** The condition is exact: it holds if and only if every break, by any number of levels that it may read, frees the
      same and ends at the same loop as before. */
  lemma BreaksAgreeExactly(c: Code)
    requires WellFormed(c)
    ensures AllBreaksAgree(c, Removed(c)) <==> BreakPointsStable(c, Kill(c.ops))
  {
    var keep, c' := Kill(c.ops), Removed(c);
    CompactedMoved(c, keep);
    if BreakPointsStable(c, keep) {
      forall p: nat | p < |c.ops| ensures BreakAgrees(c, c', p) {
        StableAgrees(c, keep, c', p);
      }
    } else {
      var p: nat, i :| p < |c.ops| && Leaves(c, p, i) && !Stable(c, keep, i);
      UnstableDisagrees(c, keep, c', p, i);
    }
  }

  lemma InsideMoved(keep: seq<Op>, t: nat, pc: nat)
    requires t <= |keep| && pc < |keep| && !keep[pc].Nop?
    ensures t <= pc <==> Before(keep, t) <= Before(keep, pc)
  {
    if t <= pc {
      BeforeMonotone(keep, t, pc);
    } else {
      BeforeMonotone(keep, pc, t);
    }
  }

  /** The handler around a surviving op is still around it, and is the only one that is. */
  lemma {:induction false} HandlerMoved(keep: seq<Op>, old_: seq<TryCatch>, new_: seq<TryCatch>, pc: nat)
    requires |old_| == |new_| && pc < |keep| && !keep[pc].Nop?
    requires forall i :: 0 <= i < |old_| ==> old_[i].tryOp < |keep| && old_[i].catchOp < |keep|
    requires forall i :: 0 <= i < |old_| ==>
      new_[i] == TryCatch(Renumber(keep, old_[i].tryOp), Renumber(keep, old_[i].catchOp))
    ensures var h := Handler(old_, pc);
      h < |keep| && Handler(new_, Before(keep, pc)) == if h < 0 then -1 else Before(keep, h)
  {
    if old_ != [] {
      var n := |old_| - 1;
      HandlerMoved(keep, old_[..n], new_[..n], pc);
      InsideMoved(keep, old_[n].tryOp, pc);
      InsideMoved(keep, old_[n].catchOp, pc);
    }
  }

  ghost predicate Matches(keep: seq<Op>, s: State, t: State) {
    && s == t.(pc := s.pc)
    && (t.done || (0 <= t.pc < |keep| && s.pc == Before(keep, t.pc)))
  }

  /** A removed op only moves control, forward, past removed ops. */
  lemma NopStep(env: Env, c: Code, keep: seq<Op>, t: State)
    requires Ready(c, keep) && !t.done && 0 <= t.pc < |keep| && keep[t.pc].Nop?
    ensures var u := Step(env, c, t);
      u == t.(pc := u.pc) && t.pc < u.pc < |keep| && Before(keep, t.pc) == Before(keep, u.pc)
  {
    var u := Step(env, c, t);
    assert TargetsIn(c.ops[t.pc], |c.ops|);
    assert forall k :: t.pc < k < u.pc ==> keep[k] == c.ops[k];
    BeforeMonotone(keep, t.pc, u.pc);
  }

  lemma NopPassed(env: Env, c: Code, keep: seq<Op>, t: State) returns (u: State)
    requires Ready(c, keep) && !t.done && 0 <= t.pc < |keep| && keep[t.pc].Nop?
    ensures u == Step(env, c, t) && u == t.(pc := u.pc) && t.pc < u.pc < |keep|
    ensures Before(keep, t.pc) == Before(keep, u.pc)
  {
    NopStep(env, c, keep, t);
    u := Step(env, c, t);
  }

  /** From any point the old code gets to the next surviving op without being seen. */
  lemma {:induction false} SkipNops(env: Env, c: Code, keep: seq<Op>, t: State) returns (k: nat, t': State)
    requires Ready(c, keep) && !t.done && 0 <= t.pc < |keep|
    ensures t' == Run(Stepper(env, c), t, k) && t' == t.(pc := t'.pc)
    ensures 0 <= t'.pc < |keep| && !keep[t'.pc].Nop? && Before(keep, t.pc) == Before(keep, t'.pc)
    decreases |keep| - t.pc
  {
    if !keep[t.pc].Nop? {
      k, t' := 0, t;
    } else {
      var j;
      var u := NopPassed(env, c, keep, t);
      j, t' := SkipNops(env, c, keep, u);
      RunFrom(env, c, t, j, t');
      k := j + 1;
    }
  }

  lemma LeaveMoved(c: Code, keep: seq<Op>, c': Code, s: State, t: State, loop: int, levels: int, cont: bool)
    requires Ready(c, keep) && Moved(c, keep, c') && WayStable(c, keep, loop, levels) && !t.done && Matches(keep, s, t)
    ensures Matches(keep, Leave(c', s, loop, levels, cont), Leave(c, t, loop, levels, cont))
  {
    UnwindMoved(c, keep, c', t.temps, t.trace, loop, levels);
  }

  lemma TryMoved(c: Code, keep: seq<Op>, c': Code, pc: nat)
    requires Ready(c, keep) && Moved(c, keep, c') && pc < |keep| && !keep[pc].Nop?
    ensures var h := Handler(c.tryCatch, pc);
      h < |keep| && Handler(c'.tryCatch, Before(keep, pc)) == if h < 0 then -1 else Before(keep, h)
  {
    HandlerMoved(keep, c.tryCatch, c'.tryCatch, pc);
  }

  lemma JumpMoved(env: Env, c: Code, keep: seq<Op>, c': Code, s: State, t: State, op: Op)
    requires |keep| == |c.ops| && !t.done && Matches(keep, s, t) && TargetsIn(op, |keep|)
    requires Exits(op) || (t.pc + 1 < |keep| && Before(keep, t.pc + 1) == Before(keep, t.pc) + 1)
    requires !op.Brk? && !op.Cont? && !op.Exec?
    ensures Matches(keep, StepOp(env, c', Retarget(keep, op), s), StepOp(env, c, op, t))
  {
  }

  lemma ExecMoved(env: Env, c: Code, keep: seq<Op>, c': Code, s: State, t: State, op: Op)
    requires |keep| == |c.ops| && !t.done && Matches(keep, s, t) && op.Exec?
    requires t.pc + 1 < |keep| && Before(keep, t.pc + 1) == Before(keep, t.pc) + 1
    requires var h := Handler(c.tryCatch, t.pc);
      h < |keep| && Handler(c'.tryCatch, s.pc) == if h < 0 then -1 else Before(keep, h)
    ensures Matches(keep, StepOp(env, c', op, s), StepOp(env, c, op, t))
  {
  }

  lemma NextMoved(c: Code, keep: seq<Op>, pc: nat)
    requires Ready(c, keep) && pc < |keep| && !keep[pc].Nop?
    ensures TargetsIn(c.ops[pc], |keep|)
    ensures Exits(c.ops[pc]) || (pc + 1 < |keep| && Before(keep, pc + 1) == Before(keep, pc) + 1)
  {
  }

  lemma StepSameButLink(env: Env, c: Code, a: Op, b: Op, s: State)
    requires SameButLink(a, b)
    ensures StepOp(env, c, a, s) == StepOp(env, c, b, s)
  {
  }

  ghost predicate StepMatches(env: Env, c: Code, keep: seq<Op>, c': Code, s: State, t: State, op: Op) {
    Matches(keep, StepOp(env, c', Retarget(keep, op), s), StepOp(env, c, op, t))
  }

  lemma LeaveStep(env: Env, c: Code, keep: seq<Op>, c': Code, s: State, t: State, op: Op)
    requires Ready(c, keep) && Moved(c, keep, c') && BreakPointsStable(c, keep) && !t.done
    requires Matches(keep, s, t) && (op.Brk? || op.Cont?) && op == c.ops[t.pc]
    ensures StepMatches(env, c, keep, c', s, t, op)
  {
    BreakIsStable(c, keep, t.pc, Read(env, t, op.levels));
    LeaveMoved(c, keep, c', s, t, op.loop, Read(env, t, op.levels), op.Cont?);
  }

  lemma PlainStep(env: Env, c: Code, keep: seq<Op>, c': Code, s: State, t: State, op: Op)
    requires Ready(c, keep) && Moved(c, keep, c') && !t.done && Matches(keep, s, t) && !keep[t.pc].Nop?
    requires op == c.ops[t.pc] && !op.Brk? && !op.Cont?
    ensures StepMatches(env, c, keep, c', s, t, op)
  {
    NextMoved(c, keep, t.pc);
    if op.Exec? {
      TryMoved(c, keep, c', t.pc);
      ExecMoved(env, c, keep, c', s, t, op);
    } else {
      JumpMoved(env, c, keep, c', s, t, op);
    }
  }

  lemma StepMoved(env: Env, c: Code, keep: seq<Op>, c': Code, s: State, t: State)
    requires Ready(c, keep) && Moved(c, keep, c') && BreakPointsStable(c, keep) && !t.done
    requires Matches(keep, s, t) && !keep[t.pc].Nop?
    ensures StepMatches(env, c, keep, c', s, t, c.ops[t.pc])
  {
    if c.ops[t.pc].Brk? || c.ops[t.pc].Cont? {
      LeaveStep(env, c, keep, c', s, t, c.ops[t.pc]);
    } else {
      PlainStep(env, c, keep, c', s, t, c.ops[t.pc]);
    }
  }

  lemma StepAtSurvivor(env: Env, c: Code, keep: seq<Op>, c': Code, s: State, i: nat)
    requires |keep| == |c.ops| && Moved(c, keep, c') && !s.done
    requires i < |keep| && !keep[i].Nop? && s.pc == Before(keep, i)
    ensures Step(env, c', s) == StepOp(env, c', Retarget(keep, c.ops[i]), s)
  {
    assert !keep[i].Nop?;
    StepSameButLink(env, c', c'.ops[s.pc], Retarget(keep, c.ops[i]), s);
  }

  lemma LiveStepMoved(env: Env, c: Code, keep: seq<Op>, c': Code, s: State, u: State)
    requires Ready(c, keep) && Moved(c, keep, c') && BreakPointsStable(c, keep) && !u.done
    requires Matches(keep, s, u) && !keep[u.pc].Nop?
    ensures Matches(keep, Step(env, c', s), Step(env, c, u))
  {
    StepMoved(env, c, keep, c', s, u);
    StepAtSurvivor(env, c, keep, c', s, u.pc);
  }

  /** The old code's next visible step: of the surviving op that the new code is at. */
  lemma NextLive(env: Env, c: Code, keep: seq<Op>, s: State, t: State) returns (k: nat, u: State)
    requires Ready(c, keep) && Matches(keep, s, t) && !t.done
    ensures k >= 1 && Run(Stepper(env, c), t, k) == Step(env, c, u)
    ensures Matches(keep, s, u) && !u.done && !keep[u.pc].Nop?
  {
    k, u := SkipNops(env, c, keep, t);
    RunNext(env, c, t, k, u);
    k := k + 1;
  }

  lemma MacroStepMoved(env: Env, c: Code, keep: seq<Op>, c': Code, s: State, t: State) returns (k: nat)
    requires Ready(c, keep) && Moved(c, keep, c') && BreakPointsStable(c, keep) && Matches(keep, s, t) && !t.done
    ensures k >= 1 && Matches(keep, Step(env, c', s), Run(Stepper(env, c), t, k))
  {
    var u;
    k, u := NextLive(env, c, keep, s, t);
    LiveStepMoved(env, c, keep, c', s, u);
  }

  ghost function MatchRel(keep: seq<Op>): (State, State) -> bool { (s, t) => Matches(keep, s, t) }

  lemma MovedReaches(env: Env, c: Code, keep: seq<Op>, c': Code, s: State, t: State, R: (State, State) -> bool)
    requires Ready(c, keep) && Moved(c, keep, c') && BreakPointsStable(c, keep) && R == MatchRel(keep) && R(s, t)
    ensures Reaches(Stepper(env, c')(s), Stepper(env, c), t, R)
  {
    if t.done {
      DoneReaches(env, c, c', s, t, R);
    } else {
      var k := MacroStepMoved(env, c, keep, c', s, t);
      assert R(Stepper(env, c')(s), Run(Stepper(env, c), t, k));
    }
  }

  lemma MovedSimulates(env: Env, c: Code, keep: seq<Op>, c': Code)
    requires Ready(c, keep) && Moved(c, keep, c') && BreakPointsStable(c, keep)
    ensures MacroStep(Stepper(env, c'), Observe(), Stepper(env, c), Observe(), MatchRel(keep))
  {
    var R := MatchRel(keep);
    forall s: State, t: State | R(s, t)
      ensures Reaches(Stepper(env, c')(s), Stepper(env, c), t, R)
    {
      MovedReaches(env, c, keep, c', s, t, R);
    }
  }

  /** Removing the NOPs of a well-formed op array changes nothing that can be seen of any run. */
  lemma NopRemovalPreserves(env: Env, c: Code, outside: int -> nat)
    requires WellFormed(c) && BreakPointsStable(c, Kill(c.ops))
    ensures Runs(env, Removed(c)) == Runs(env, c)
    ensures Runs(env, RemovedWith(c, outside)) == Runs(env, c)
  {
    StartsAreNotRun(env, c, outside);
    var keep, c' := Kill(c.ops), Removed(c);
    CompactedMoved(c, keep);
    MovedSimulates(env, c, keep, c');
    MachineLawful(env, c);
    MacroStepSound(Stepper(env, c'), Observe(), Stepper(env, c), Observe(), MatchRel(keep), Init(), Init());
  }

  /** BRK 2 out of a loop whose break point is a NOP right before the FREE of another: the loop variable of the other
      one is freed once more. */
  const EARLY_FREE: Code := Code(
    [Brk(0, Const(2)), Nop, Exec(FREE, Tmp(0), Unused, Unused, NoResult), Return(Unused)],
    [BrkCont(0, 0, 1, 1), BrkCont(0, 0, 3, -1)], [], -1, 1)

  const FREED_EARLY: Code := Code(
    [Brk(0, Const(2)), Exec(FREE, Tmp(0), Unused, Unused, NoResult), Return(Unused)],
    [BrkCont(0, 0, 1, 1), BrkCont(0, 0, 2, -1)], [], -1, 1)

  lemma EarlyFreeRemoved()
    ensures Removed(EARLY_FREE) == FREED_EARLY
  {
    var keep := Kill(EARLY_FREE.ops);
    assert keep == EARLY_FREE.ops;
    assert Before(keep, 0) == 0 && Before(keep, 1) == 1 && Before(keep, 2) == 1 && Before(keep, 3) == 2
      && Before(keep, 4) == 3;
    assert Survivors(keep, 1) == [keep[0]] && Survivors(keep, 2) == [keep[0]]
      && Survivors(keep, 3) == [keep[0], keep[2]];
    assert Survivors(keep, 4) == FREED_EARLY.ops;
    assert RetargetAll(keep, Survivors(keep, 4)) == FREED_EARLY.ops;
    assert MoveBrkCont(keep, EARLY_FREE.brkCont) == FREED_EARLY.brkCont;
  }

  lemma EarlyFreeRun(env: Env, c: Code, trace: seq<Event>, at: nat)
    requires at < |c.ops| && c.ops[0] == Brk(0, Const(2)) && c.ops[at] == Return(Unused) && 0 < at
    requires Unwind(c, map[], [], 0, 2) == (1, trace) && |c.brkCont| == 2 && c.brkCont[1].brk == at
    ensures ObsOf(Run(Stepper(env, c), Init(), 2)) == Obs(trace + [Returned(NoArg)], true)
  {
    var s := Step(env, c, Init());
    RunFrom(env, c, Init(), 0, s);
    RunNext(env, c, Init(), 1, s);
  }

  /** Where a break point is not stable, runs may change. */
  lemma EarlyFreeChangesRun(env: Env)
    ensures WellFormed(EARLY_FREE) && Runs(env, Removed(EARLY_FREE)) != Runs(env, EARLY_FREE)
  {
    var c, d := EARLY_FREE, FREED_EARLY;
    EarlyFreeRemoved();
    var freed := [Ran(FREE, Val(0), NoArg, NoArg)];
    assert Unwind(c, map[], [], 0, 2) == Unwind(c, map[], [], 1, 1) == (1, []);
    assert [] + freed == freed && RunEvent(map[], d.ops[1]) == freed[0];
    assert Unwind(d, map[], [], 0, 2) == Unwind(d, map[], freed, 1, 1) == (1, freed);
    EarlyFreeRun(env, c, [], 3);
    EarlyFreeRun(env, d, freed, 2);
    MachineLawful(env, d);
    var o := Obs([Returned(NoArg)], true);
    assert o.Leq(ObsOf(Run(Stepper(env, c), Init(), 2)));
    assert o in Runs(env, c);
    if o in Runs(env, d) {
      EndsOnce(Stepper(env, d), Observe(), Init(), 2, o);
    }
  }

  /** Code that returns before it comes to such a break. */
  const UNSEEN: Code := Code(
    [Return(Unused), Brk(0, Const(2)), Nop, Exec(FREE, Tmp(0), Unused, Unused, NoResult), Return(Unused)],
    [BrkCont(0, 0, 2, 1), BrkCont(0, 0, 4, -1)], [], -1, 1)

  lemma ReturnsAtOnce(env: Env, c: Code, o: Obs<Event>)
    requires |c.ops| > 0 && c.ops[0] == Return(Unused)
    ensures o in Runs(env, c) <==> o.Leq(Obs([], false)) || o.Leq(Obs([Returned(NoArg)], true))
  {
    MachineLawful(env, c);
    DoneAtOnce(Stepper(env, c), Observe(), Init(), o);
    assert [] + [Returned(NoArg)] == [Returned(NoArg)];
  }

  /** For whole runs the condition is sufficient and no more: a break that changes may never be met. */
  lemma UnstableButUnseen(env: Env)
    ensures WellFormed(UNSEEN) && !BreakPointsStable(UNSEEN, Kill(UNSEEN.ops))
    ensures Runs(env, Removed(UNSEEN)) == Runs(env, UNSEEN)
  {
    var c, keep := UNSEEN, Kill(UNSEEN.ops);
    KillIsReady(c);
    CompactedMoved(c, keep);
    assert !keep[0].Nop? && !keep[3].Nop? && keep[2].Nop?;
    assert Ancestor(c, 0, 0) == 0 && Leaves(c, 1, 0);
    assert FirstLive(keep, 3) == 3 && FirstLive(keep, 2) == 3 && !Stable(c, keep, 0);
    assert Before(keep, 0) == 0;
    var d := Removed(c);
    assert d.ops[0] == Return(Unused);
    forall o: Obs<Event> ensures o in Runs(env, d) <==> o in Runs(env, c) {
      ReturnsAtOnce(env, d, o);
      ReturnsAtOnce(env, c, o);
    }
  }

  // ---- the starts of the loops

  /** The same code, but for the starts of its loops. */
  ghost predicate SameButStarts(a: Code, c: Code) {
    && a.ops == c.ops && a.tryCatch == c.tryCatch && |a.brkCont| == |c.brkCont|
    && forall i {:trigger a.brkCont[i]} :: 0 <= i < |c.brkCont| ==>
         a.brkCont[i] == BrkCont(a.brkCont[i].start, c.brkCont[i].cont, c.brkCont[i].brk, c.brkCont[i].parent)
  }

  lemma {:induction false} UnwindSameStarts(a: Code, c: Code, m: Store, trace: seq<Event>, loop: int, levels: int)
    requires SameButStarts(a, c)
    ensures Unwind(a, m, trace, loop, levels) == Unwind(c, m, trace, loop, levels)
    decreases levels
  {
    if 0 <= loop < |c.brkCont| && levels > 1 {
      assert a.brkCont[loop].brk == c.brkCont[loop].brk;
      var b := c.brkCont[loop].brk;
      var next := if b < |c.ops| && IsFree(c.ops[b]) then trace + [RunEvent(m, c.ops[b])] else trace;
      UnwindSameStarts(a, c, m, next, c.brkCont[loop].parent, levels - 1);
    }
  }

  lemma StepSameStarts(env: Env, a: Code, c: Code, s: State)
    requires SameButStarts(a, c)
    ensures Step(env, a, s) == Step(env, c, s)
  {
    if !s.done && 0 <= s.pc < |c.ops| {
      var op := c.ops[s.pc];
      if op.Brk? || op.Cont? {
        UnwindSameStarts(a, c, s.temps, s.trace, op.loop, Read(env, s, op.levels));
      }
    }
  }

  lemma {:induction false} RunSameStarts(env: Env, a: Code, c: Code, n: nat)
    requires SameButStarts(a, c)
    ensures Run(Stepper(env, a), Init(), n) == Run(Stepper(env, c), Init(), n)
  {
    if n > 0 {
      RunSameStarts(env, a, c, n - 1);
      StepSameStarts(env, a, c, Run(Stepper(env, c), Init(), n - 1));
    }
  }

  lemma RemovedSameStarts(c: Code, outside: int -> nat)
    ensures SameButStarts(RemovedWith(c, outside), Removed(c))
  {
  }

  /** No step of a run looks at a start. */
  lemma StartsAreNotRun(env: Env, c: Code, outside: int -> nat)
    ensures Runs(env, RemovedWith(c, outside)) == Runs(env, Removed(c))
  {
    var a, r := RemovedWith(c, outside), Removed(c);
    RemovedSameStarts(c, outside);
    forall o: Obs<Event> ensures o in Runs(env, a) <==> o in Runs(env, r) {
      if n: nat :| o.Leq(ObsOf(Run(Stepper(env, a), Init(), n))) {
        RunSameStarts(env, a, r, n);
        assert o.Leq(Observe()(Run(Stepper(env, r), Init(), n)));
      }
      if n: nat :| o.Leq(ObsOf(Run(Stepper(env, r), Init(), n))) {
        RunSameStarts(env, a, r, n);
        assert o.Leq(Observe()(Run(Stepper(env, a), Init(), n)));
      }
    }
  }

  /** A difference of 32 bits is the number itself only if nothing is taken away. */
  lemma DifferenceStays(n: int, w: nat)
    ensures AsInt(n - w) == n <==> FitsInt(n) && w % WORD == 0
  {
  }

  /** The start of a loop without a variable stays negative, as the block pass asks, if what is read is below 2^31. */
  lemma LoopWithoutVariable(keep: seq<Op>, outside: int -> nat)
    ensures MoveStart(keep, -1, outside) < 0 <==> outside(-1) % WORD < HALF
    ensures MoveStart(keep, -1, outside) == -1 <==> outside(-1) % WORD == 0
  {
  }

  /** Entry i of the table comes out as it is meant to. */
  predicate StartFollows(c: Code, outside: int -> nat, i: nat)
    requires i < |c.brkCont|
  {
    var n := c.brkCont[i].start;
    0 <= n < |c.ops| || (FitsInt(n) && outside(n) % WORD == 0)
  }

  /** With what happens to stand outside the shift list, the op array is the one that is meant if and only if every
      word that is read there is 0. */
  lemma TablesFollow(c: Code, outside: int -> nat)
    ensures RemovedWith(c, outside) == Removed(c) <==>
      NoneToRemove(c) || forall i: nat {:trigger StartFollows(c, outside, i)} :: i < |c.brkCont| ==>
        StartFollows(c, outside, i)
  {
    var keep := Kill(c.ops);
    if !NoneToRemove(c) {
      var a, r := PatchAll(keep, c.brkCont, outside), MoveBrkCont(keep, c.brkCont);
      forall i: nat | i < |c.brkCont| ensures a[i] == r[i] <==> StartFollows(c, outside, i) {
        DifferenceStays(c.brkCont[i].start, outside(c.brkCont[i].start));
      }
      assert RemovedWith(c, outside) == Removed(c) <==> a == r;
      if forall i: nat {:trigger StartFollows(c, outside, i)} :: i < |c.brkCont| ==> StartFollows(c, outside, i) {
        assert forall i: nat {:trigger a[i]} :: i < |c.brkCont| ==> StartFollows(c, outside, i);
        assert a == r;
      }
    }
  }

  /** The op array is the one that is meant, whatever stands outside the shift list, if and only if no op is removed or
      every loop has a start. */
  lemma TablesFollowExactly(c: Code)
    ensures NoneToRemove(c) || AllInside(|c.ops|, c.brkCont) <==>
      forall outside: int -> nat {:trigger RemovedWith(c, outside)} :: RemovedWith(c, outside) == Removed(c)
  {
    if NoneToRemove(c) || AllInside(|c.ops|, c.brkCont) {
      forall outside: int -> nat ensures RemovedWith(c, outside) == Removed(c) {
        TablesFollow(c, outside);
      }
    } else {
      var i: nat :| i < |c.brkCont| && !(0 <= c.brkCont[i].start < |c.ops|);
      var ones: int -> nat := n => 1;
      TablesFollow(c, ones);
      assert !StartFollows(c, ones, i);
      assert RemovedWith(c, ones) != Removed(c);
    }
  }

  /** NOP; while ($a) { f(); } */
  const WHILE: Code := Code(
    [Nop, CondJmp(false, Cv(0), 4), Exec(60, Unused, Unused, Unused, NoResult), Jmp(1), Return(Unused)],
    [BrkCont(-1, 1, 4, -1)], [], -1, 0)

  /** A loop without a variable, in code that has a NOP: everything the pass asks for holds, and the start that the
      loop is left with is whatever stood in front of the shift list, taken away from -1. */
  lemma StartIsLost(outside: int -> nat)
    ensures WellFormed(WHILE) && BreakPointsStable(WHILE, Kill(WHILE.ops)) && !NoneToRemove(WHILE)
    ensures Removed(WHILE).brkCont == [BrkCont(-1, 0, 3, -1)]
    ensures RemovedWith(WHILE, outside).brkCont == [BrkCont(AsInt(-1 - outside(-1)), 0, 3, -1)]
    ensures outside(-1) == HALF ==> RemovedWith(WHILE, outside).brkCont[0].start == HALF - 1
  {
    var keep := Kill(WHILE.ops);
    KillIsReady(WHILE);
    assert keep == WHILE.ops;
    assert Before(keep, 1) == 0 && Before(keep, 2) == 1 && Before(keep, 3) == 2 && Before(keep, 4) == 3
      && Before(keep, 5) == 4;
  }

  // ---- what else the pass achieves

  /** Every delayed declaration stays on the early binding list, in order, under its new number. */
  lemma {:induction false} BindingListMoved(keep: seq<Op>, old_: seq<Op>, ops: seq<Op>, at: int)
    requires LinksForward(old_, at) && |old_| == |keep| && |ops| == Before(keep, |keep|)
    requires forall i :: 0 <= i < |keep| && Linked(old_[i]) ==> !keep[i].Nop?
    requires forall i :: 0 <= i < |keep| && at <= i && Linked(old_[i]) ==>
      Before(keep, i) < |ops| && Linked(ops[Before(keep, i)]) && ops[Before(keep, i)].result == old_[i].result
    ensures var r := Relink(keep, ops, at);
      IsBindingList(r, Move(keep, at), MoveAll(keep, BindingList(old_, at)))
    decreases if at == -1 then 0 else |old_| - at
  {
    if at != -1 {
      var j := Before(keep, at);
      var n := ops[j].result.next;
      var r := ops[j := WithResult(ops[j], Link(Move(keep, n)))];
      var tail := BindingList(old_, n);
      assert MoveAll(keep, [at] + tail) == [j] + MoveAll(keep, tail);
      if n != -1 {
        forall i | n <= i < |keep| && Linked(old_[i])
          ensures Before(keep, i) < |r| && r[Before(keep, i)] == ops[Before(keep, i)]
        {
          BeforeMonotone(keep, at, i);
        }
        BindingListMoved(keep, old_, r, n);
        BeforeMonotone(keep, at, n);
        RelinkKeeps(keep, r, n, j);
      } else {
        assert Relink(keep, ops, at) == r;
      }
    }
  }

  lemma EarlyBindingMoved(c: Code)
    requires WellFormed(c) && LinksForward(c.ops, c.earlyBinding)
    ensures var keep, c' := Kill(c.ops), Removed(c);
      IsBindingList(c'.ops, c'.earlyBinding, MoveAll(keep, BindingList(c.ops, c.earlyBinding)))
  {
    var keep := Kill(c.ops);
    if Before(keep, |keep|) == |keep| {
      BindingListIs(c.ops, c.earlyBinding);
      var l := BindingList(c.ops, c.earlyBinding);
      forall i | 0 <= i < |l| ensures Move(keep, l[i]) == l[i] {
        if 0 <= l[i] < |keep| {
          NothingRemoved(keep, l[i]);
        }
      }
      assert MoveAll(keep, l) == l;
      if 0 <= c.earlyBinding < |keep| {
        NothingRemoved(keep, c.earlyBinding);
      }
    } else {
      SurvivorsWellFormed(c, keep);
      var ops := RetargetAll(keep, Survivors(keep, |keep|));
      forall i | 0 <= i < |keep| && Linked(c.ops[i])
        ensures !keep[i].Nop? && Before(keep, i) < |ops| && Linked(ops[Before(keep, i)])
        ensures ops[Before(keep, i)].result == c.ops[i].result
      {
        assert SameLink(keep, c.ops, ops, i);
      }
      BindingListMoved(keep, c.ops, ops, c.earlyBinding);
    }
  }

  lemma {:induction false} BindingListIs(ops: seq<Op>, first: int)
    requires LinksForward(ops, first)
    ensures IsBindingList(ops, first, BindingList(ops, first))
    decreases if first == -1 then 0 else |ops| - first
  {
    if first != -1 {
      BindingListIs(ops, ops[first].result.next);
    }
  }

  /** The list that starts at first and follows the links of ops is l. */
  ghost predicate IsBindingList(ops: seq<Op>, first: int, l: seq<int>)
    decreases |l|
  {
    if l == [] then first == -1
    else first == l[0] && 0 <= first < |ops| && Linked(ops[first]) && IsBindingList(ops, ops[first].result.next, l[1..])
  }

  /** No NOP is left, and the array has shrunk by exactly the NOPs and the killed jumps. */
  lemma NoNopLeft(c: Code, j: nat)
    requires WellFormed(c) && j < |Removed(c).ops|
    ensures !Removed(c).ops[j].Nop?
    ensures |Removed(c).ops| == Before(Kill(c.ops), |c.ops|)
  {
    KillIsReady(c);
    CompactedMoved(c, Kill(c.ops));
    NoNopMoved(c, Kill(c.ops), Removed(c), j);
  }

  lemma KillIsReady(c: Code)
    requires WellFormed(c)
    ensures Ready(c, Kill(c.ops))
  {
  }

  lemma NoNopMoved(c: Code, keep: seq<Op>, c': Code, j: nat)
    requires Killed(c.ops, keep) && Moved(c, keep, c') && j < |c'.ops|
    ensures !c'.ops[j].Nop?
  {
    var i := SurvivorFrom(keep, j, |keep|);
    assert SameButLink(c'.ops[Before(keep, i)], Retarget(keep, c.ops[i]));
  }

  // ---- the pass itself, in place

  /** Kill op i if it is a JMP over NOPs: walk back from its target. */
  method KillJump(ops: array<Op>, i: nat, ghost was: seq<Op>) returns (opline: Op)
    requires i < |was| <= ops.Length && TargetsIn(was[i], |was|)
    requires forall k :: i <= k < |was| ==> ops[k] == was[k]
    modifies ops
    ensures opline == Kill(was)[i] && ops[i] == opline
    ensures forall k :: 0 <= k < ops.Length && k != i ==> ops[k] == old(ops[k])
    ensures !opline.Nop? ==> ops[i] == old(ops[i])
  {
    opline := ops[i];
    if opline.Jmp? && opline.target > i {
      var target := opline.target - 1;
      while ops[target].Nop?
        invariant i <= target < opline.target
        invariant forall k :: target < k < opline.target ==> was[k].Nop?
        decreases target
      {
        target := target - 1;
      }
      if target == i {
        opline := Nop;
        ops[i] := opline;
      }
    }
  }

  /** Op i, unless it is or becomes a NOP, is moved to the end of those kept so far. */
  method CompactOp(ops: array<Op>, last: nat, i: nat, newCount: nat, ghost was: seq<Op>, ghost keep: seq<Op>)
      returns (kept: bool)
    requires i < last == |was| <= ops.Length && TargetsIn(was[i], last) && keep == Kill(was)
    requires newCount == Before(keep, i)
    requires forall k {:trigger ops[k]} :: 0 <= k < newCount ==> ops[k] == Survivors(keep, i)[k]
    requires forall k {:trigger ops[k]} :: i <= k < last ==> ops[k] == was[k]
    modifies ops
    ensures kept == !keep[i].Nop?
    ensures forall k {:trigger ops[k]} :: 0 <= k < Before(keep, i + 1) ==> ops[k] == Survivors(keep, i + 1)[k]
    ensures forall k {:trigger ops[k]} :: i < k < last ==> ops[k] == was[k]
  {
    var opline := KillJump(ops, i, was);
    kept := !opline.Nop?;
    if kept && newCount != i {
      ops[newCount] := opline;
    }
  }

  method Compact(ops: array<Op>, last: nat, ghost was: seq<Op>, ghost keep: seq<Op>)
      returns (newCount: nat, shiftlist: array<nat>)
    requires last == |was| <= ops.Length
    requires forall k :: 0 <= k < last ==> ops[k] == was[k] && TargetsIn(was[k], last)
    requires keep == Kill(was)
    modifies ops
    ensures newCount == Before(keep, last) && newCount <= last && fresh(shiftlist) && shiftlist.Length == last
    ensures forall k :: 0 <= k < newCount ==> ops[k] == Survivors(keep, last)[k]
    ensures forall k {:trigger shiftlist[k]} :: 0 <= k < last ==> shiftlist[k] == k - Before(keep, k)
  {
    shiftlist := new nat[last];
    var i, shift := 0, 0;
    newCount := 0;
    while i < last
      invariant fresh(shiftlist) && shiftlist.Length == last
      invariant i <= last && newCount + shift == i && newCount == Before(keep, i)
      invariant forall k {:trigger ops[k]} :: 0 <= k < newCount ==> ops[k] == Survivors(keep, i)[k]
      invariant forall k {:trigger ops[k]} :: i <= k < last ==> ops[k] == was[k]
      invariant forall k {:trigger shiftlist[k]} :: 0 <= k < i ==> shiftlist[k] == k - Before(keep, k)
    {
      shiftlist[i] := shift;
      var kept := CompactOp(ops, last, i, newCount, was, keep);
      if kept {
        newCount := newCount + 1;
      } else {
        shift := shift + 1;
      }
      i := i + 1;
    }
  }

  method PatchJumps(ops: array<Op>, last: nat, shiftlist: array<nat>, ghost keep: seq<Op>, ghost was: seq<Op>)
    requires last == |was| <= ops.Length && shiftlist.Length == |keep|
    requires forall k {:trigger ops[k]} :: 0 <= k < last ==> ops[k] == was[k]
    requires forall k {:trigger was[k]} :: 0 <= k < last ==> TargetsIn(was[k], |keep|)
    requires forall k {:trigger shiftlist[k]} :: 0 <= k < |keep| ==> shiftlist[k] == k - Before(keep, k)
    modifies ops
    ensures ops[..last] == RetargetAll(keep, was)
  {
    for i := 0 to last
      invariant forall k :: 0 <= k < i ==> ops[k] == Retarget(keep, was[k])
      invariant forall k :: i <= k < last ==> ops[k] == was[k]
    {
      assert TargetsIn(was[i], |keep|);
      match ops[i] {
        case Jmp(t) => ops[i] := Jmp(t - shiftlist[t]);
        case CondJmp(nz, x, t) => ops[i] := CondJmp(nz, x, t - shiftlist[t]);
        case CondJmpEx(nz, x, t, r) => ops[i] := CondJmpEx(nz, x, t - shiftlist[t], r);
        case JmpZnz(x, z, n) => ops[i] := JmpZnz(x, z - shiftlist[z], n - shiftlist[n]);
        case _ =>
      }
    }
  }

  /** Old op i is a delayed declaration that survives, still with the link it had. */
  ghost predicate SameLink(keep: seq<Op>, was: seq<Op>, ops: seq<Op>, i: nat)
    requires i < |keep| == |was|
  {
    && !keep[i].Nop? && Before(keep, i) < |ops|
    && Linked(was[i]) && Linked(ops[Before(keep, i)])
    && ops[Before(keep, i)].result == was[i].result
  }

  method PatchBindings(a: OpArray, shiftlist: array<nat>, ghost keep: seq<Op>, ghost was: seq<Op>)
    requires a.Valid() && shiftlist.Length == |keep| == |was|
    requires forall k {:trigger shiftlist[k]} :: 0 <= k < |keep| ==> shiftlist[k] == k - Before(keep, k)
    requires a.last == Before(keep, |keep|)
    requires LinksForward(was, a.earlyBinding)
    requires forall i :: 0 <= i < |keep| && Linked(was[i]) ==>
      SameLink(keep, was, a.opcodes[..a.last], i)
    modifies a`earlyBinding, a.opcodes
    ensures a.opcodes[..a.last] == Relink(keep, old(a.opcodes[..a.last]), old(a.earlyBinding))
    ensures a.earlyBinding == Move(keep, old(a.earlyBinding))
  {
    if a.earlyBinding != -1 {
      var at := a.earlyBinding;
      a.earlyBinding := at - shiftlist[at];
      var j := a.earlyBinding;
      ghost var goal := Relink(keep, a.opcodes[..a.last], at);
      while a.opcodes[j].result.next != -1
        invariant a.last == old(a.last) && 0 <= at < |keep| && Linked(was[at]) && j == Before(keep, at)
        invariant forall i :: at <= i < |keep| && Linked(was[i]) ==>
          SameLink(keep, was, a.opcodes[..a.last], i)
        invariant Relink(keep, a.opcodes[..a.last], at) == goal
        invariant a.earlyBinding == Move(keep, old(a.earlyBinding))
        decreases |keep| - at
      {
        var n := a.opcodes[j].result.next;
        ghost var ops := a.opcodes[..a.last];
        a.opcodes[j] := WithResult(a.opcodes[j], Link(n - shiftlist[n]));
        assert a.opcodes[..a.last] == ops[j := a.opcodes[j]];
        forall i | n <= i < |keep| && Linked(was[i])
          ensures j < Before(keep, i)
        {
          BeforeMonotone(keep, at, i);
        }
        at := n;
        j := n - shiftlist[n];
      }
      assert WithResult(a.opcodes[j], Link(-1)) == a.opcodes[j];
      assert a.opcodes[..a.last][j := a.opcodes[j]] == a.opcodes[..a.last];
    }
  }

  /** ok: every read was inside the shift list. */
  method PatchBrkCont(t: array<BrkCont>, shiftlist: array<nat>, outside: int -> nat, ghost keep: seq<Op>)
      returns (ok: bool)
    requires shiftlist.Length == |keep|
    requires forall k {:trigger shiftlist[k]} :: 0 <= k < |keep| ==> shiftlist[k] == k - Before(keep, k)
    requires forall j :: 0 <= j < t.Length ==> t[j].cont < |keep| && t[j].brk < |keep|
    modifies t
    ensures t[..] == PatchAll(keep, old(t[..]), outside)
    ensures ok <==> AllInside(|keep|, old(t[..]))
    ensures ok ==> t[..] == MoveBrkCont(keep, old(t[..]))
  {
    ok := true;
    for j := 0 to t.Length
      invariant forall k :: 0 <= k < j ==> t[k] == PatchAll(keep, old(t[..]), outside)[k]
      invariant forall k :: j <= k < t.Length ==> t[k] == old(t[k])
      invariant ok <==> forall k :: 0 <= k < j ==> 0 <= old(t[k]).start < |keep|
    {
      var b := t[j];
      var inside := 0 <= b.start < shiftlist.Length;
      var start := if inside then b.start - shiftlist[b.start] else AsInt(b.start - outside(b.start));
      t[j] := BrkCont(start, b.cont - shiftlist[b.cont], b.brk - shiftlist[b.brk], b.parent);
      ok := ok && inside;
    }
  }

  method PatchTryCatch(t: array<TryCatch>, shiftlist: array<nat>, ghost keep: seq<Op>)
    requires shiftlist.Length == |keep|
    requires forall k {:trigger shiftlist[k]} :: 0 <= k < |keep| ==> shiftlist[k] == k - Before(keep, k)
    requires forall j :: 0 <= j < t.Length ==> t[j].tryOp < |keep| && t[j].catchOp < |keep|
    modifies t
    ensures t[..] == MoveTryCatch(keep, old(t[..]))
  {
    for j := 0 to t.Length
      invariant forall k :: 0 <= k < j ==> t[k] == MoveTryCatch(keep, old(t[..]))[k]
      invariant forall k :: j <= k < t.Length ==> t[k] == old(t[k])
    {
      t[j] := TryCatch(t[j].tryOp - shiftlist[t[j].tryOp], t[j].catchOp - shiftlist[t[j].catchOp]);
    }
  }

  method NopRemoval(a: OpArray, outside: int -> nat) returns (ok: bool)
    requires a.Valid() && WellFormed(a.View()) && LinksForward(a.View().ops, a.earlyBinding)
    modifies a, a.opcodes, a.brkCont, a.tryCatch
    ensures a.Valid() && a.View() == RemovedWith(old(a.View()), outside)
    ensures ok <==> old(NoneToRemove(a.View())) || old(AllInside(a.last, a.brkCont[..]))
    ensures ok ==> a.View() == Removed(old(a.View()))
  {
    ghost var was := a.View();
    ghost var keep := Kill(was.ops);
    var newCount, shiftlist := Compact(a.opcodes, a.last, was.ops, keep);
    if newCount != a.last {
      a.last := newCount;
      SurvivorsWellFormed(was, keep);
      PatchJumps(a.opcodes, a.last, shiftlist, keep, Survivors(keep, |keep|));
      ok := PatchBrkCont(a.brkCont, shiftlist, outside, keep);
      PatchTryCatch(a.tryCatch, shiftlist, keep);
      PatchBindings(a, shiftlist, keep, was.ops);
    } else {
      ok := true;
      AllSurvive(was.ops, |was.ops|);
      assert a.opcodes[..a.last] == was.ops;
    }
  }

  lemma SurvivorsWellFormed(c: Code, keep: seq<Op>)
    requires WellFormed(c) && keep == Kill(c.ops)
    ensures var ops := Survivors(keep, |keep|);
      && (forall k :: 0 <= k < |ops| ==> TargetsIn(ops[k], |keep|))
      && (forall i :: 0 <= i < |keep| && Linked(c.ops[i]) ==> SameLink(keep, c.ops, RetargetAll(keep, ops), i))
  {
    var ops := Survivors(keep, |keep|);
    forall k | 0 <= k < |ops| ensures TargetsIn(ops[k], |keep|) {
      var i := SurvivorFrom(keep, k, |keep|);
      SurvivorAt(keep, i, |keep|);
      assert TargetsIn(c.ops[i], |keep|);
    }
    forall i | 0 <= i < |keep| && Linked(c.ops[i]) ensures SameLink(keep, c.ops, RetargetAll(keep, ops), i) {
      SurvivorAt(keep, i, |keep|);
    }
  }
}
