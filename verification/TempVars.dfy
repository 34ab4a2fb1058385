/** Pass 9, optimize_temporary_variables: renumbering of temporaries by a backward scan that frees a
    slot at the first definition of the temporary that holds it. */
module TempVars {
  import opened FiniteSets
  import opened Simulation
  import opened Machine
  import opened OpArrays
  import opened LiveRanges

  // ---- the op with other operands

  /** The op with other operands and another result in the same places. */
  function Rebuild(op: Op, a: Operand, b: Operand, e: Operand, r: Result): Op {
    match op
    case CondJmp(nz, _, t) => CondJmp(nz, a, t)
    case CondJmpEx(nz, _, t, _) => CondJmpEx(nz, a, t, r)
    case JmpZnz(_, z, n) => JmpZnz(a, z, n)
    case QmAssign(_, _) => QmAssign(a, r)
    case Bool(_, _) => Bool(a, r)
    case Return(_) => Return(a)
    case Brk(l, _) => Brk(l, b)
    case Cont(l, _) => Cont(l, b)
    case Exec(code, _, _, _, _) => Exec(code, a, b, e, r)
    case _ => op
  }

  predicate Flagged(r: Result) { r.ResVar? && r.unused }

  function WithTemp(o: Operand, n: nat): Operand {
    match o
    case Tmp(_) => Tmp(n)
    case Var(_) => Var(n)
    case _ => o
  }

  function ResultWith(r: Result, n: nat): Result {
    match r
    case ResTmp(_) => ResTmp(n)
    case ResVar(_, u) => ResVar(n, u)
    case _ => r
  }

  predicate TempsBelow(op: Op, T: nat) {
    && (IsTemp(Op1(op)) ==> Op1(op).n < T)
    && (IsTemp(Op2(op)) ==> Op2(op).n < T)
    && (IsTemp(Ext(op)) ==> Ext(op).n < T)
    && (HasTemp(ResultOf(op)) ==> ResultOf(op).n < T)
  }

  // ---- the scan

  /** Which slots are taken, which temporaries have a slot and which, and the highest slot given out. */
  datatype Slots = Slots(taken: seq<bool>, valid: seq<bool>, slot: seq<nat>, max: int)

  ghost predicate Sized(st: Slots, T: nat) { |st.taken| == |st.valid| == |st.slot| == T }

  /** The lowest free slot from i on; the number of slots if there is none. */
  function Lowest(taken: seq<bool>, i: nat): (r: nat)
    requires i <= |taken|
    ensures i <= r <= |taken| && (r < |taken| ==> !taken[r]) && forall k :: i <= k < r ==> taken[k]
    decreases |taken| - i
  {
    if i == |taken| || !taken[i] then i else Lowest(taken, i + 1)
  }

  function Max(a: int, b: int): int { if a > b then a else b }

  /** GET_AVAILABLE_T */
  function Take(st: Slots): (r: (Slots, nat)) {
    var i := Lowest(st.taken, 0);
    (if i < |st.taken| then st.(taken := st.taken[i := true], max := Max(st.max, i)) else st, i)
  }

  function Assign(st: Slots, t: nat, i: nat): Slots
    requires t < |st.valid| && t < |st.slot|
  {
    st.(valid := st.valid[t := true], slot := st.slot[t := i])
  }

  /** An operand: give its temporary a slot unless it has one. */
  function Use(st: Slots, o: Operand, T: nat): (r: Slots)
    requires Sized(st, T) && (IsTemp(o) ==> o.n < T)
    ensures Sized(r, T)
  {
    if !IsTemp(o) || st.valid[o.n] then st
    else var (u, i) := Take(st); Assign(u, o.n, i)
  }

  function UseAll(st: Slots, op: Op, T: nat): (r: Slots)
    requires Sized(st, T) && TempsBelow(op, T)
    ensures Sized(r, T)
  {
    Use(Use(Use(st, Op1(op), T), Op2(op), T), Ext(op), T)
  }

  /** The result: the slot it is written to, and the slots afterwards. */
  function Settle(st: Slots, r: Result, first: bool, T: nat): (u: (Slots, nat))
    requires Sized(st, T) && (HasTemp(r) ==> r.n < T)
    ensures Sized(u.0, T)
  {
    if !HasTemp(r) then (st, 0)
    else if st.valid[r.n] then
      var i := st.slot[r.n];
      (if first && i < T then st.(taken := st.taken[i := false]) else st, i)
    else
      var (u, i) := Take(st);
      if Flagged(r) then (if i < T then u.(taken := u.taken[i := false]) else u, i)
      else (Assign(u, r.n, i), i)
  }

  function Mapped(slot: seq<nat>, o: Operand): Operand
    requires IsTemp(o) ==> o.n < |slot|
  {
    if IsTemp(o) then WithTemp(o, slot[o.n]) else o
  }

  /** The first op from i on that defines t; |ops| if none does. */
  function FirstFrom(ops: seq<Op>, i: nat, t: nat): (r: nat)
    requires i <= |ops|
    ensures i <= r <= |ops| && (r < |ops| ==> Defines(ops[r], t))
    ensures forall k {:trigger ops[k]} :: i <= k < r ==> !Defines(ops[k], t)
    decreases |ops| - i
  {
    if i == |ops| || Defines(ops[i], t) then i else FirstFrom(ops, i + 1, t)
  }

  function First(ops: seq<Op>, t: nat): (r: nat)
    ensures r <= |ops| && (r < |ops| ==> Defines(ops[r], t))
    ensures forall k {:trigger ops[k]} :: 0 <= k < r ==> !Defines(ops[k], t)
  {
    FirstFrom(ops, 0, t)
  }

  /** The slots after the ops from p on. */
  function After(ops: seq<Op>, p: nat, T: nat): (r: Slots)
    requires p <= |ops| && forall k {:trigger ops[k]} :: 0 <= k < |ops| ==> TempsBelow(ops[k], T)
    ensures Sized(r, T)
    decreases |ops| - p
  {
    if p == |ops| then Slots(seq(T, _ => false), seq(T, _ => false), seq(T, _ => 0), -1)
    else
      var op := ops[p];
      Settle(UseAll(After(ops, p + 1, T), op, T), ResultOf(op), IsFirst(ops, p), T).0
  }

  predicate IsFirst(ops: seq<Op>, p: nat)
    requires p < |ops|
  {
    HasTemp(ResultOf(ops[p])) && First(ops, ResultOf(ops[p]).n) == p
  }

  /** The slots between the operands and the result of op p. */
  function Mid(ops: seq<Op>, p: nat, T: nat): (r: Slots)
    requires p < |ops| && forall k {:trigger ops[k]} :: 0 <= k < |ops| ==> TempsBelow(ops[k], T)
    ensures Sized(r, T)
  {
    UseAll(After(ops, p + 1, T), ops[p], T)
  }

  /** The slot the result of op p goes to. */
  function ResultSlot(ops: seq<Op>, p: nat, T: nat): nat
    requires p < |ops| && forall k {:trigger ops[k]} :: 0 <= k < |ops| ==> TempsBelow(ops[k], T)
  {
    Settle(Mid(ops, p, T), ResultOf(ops[p]), IsFirst(ops, p), T).1
  }

  /** What op p becomes. */
  function Renamed(ops: seq<Op>, p: nat, T: nat): Op
    requires p < |ops| && forall k {:trigger ops[k]} :: 0 <= k < |ops| ==> TempsBelow(ops[k], T)
  {
    var op, m := ops[p], Mid(ops, p, T).slot;
    Rebuild(op, Mapped(m, Op1(op)), Mapped(m, Op2(op)), Mapped(m, Ext(op)),
      ResultWith(ResultOf(op), ResultSlot(ops, p, T)))
  }

  predicate WellNumbered(c: Code) {
    forall k {:trigger c.ops[k]} :: 0 <= k < |c.ops| ==> TempsBelow(c.ops[k], c.temps)
  }

  function Packed(c: Code): Code
    requires WellNumbered(c)
  {
    var st := After(c.ops, 0, c.temps);
    c.(ops := seq(|c.ops|, p requires 0 <= p < |c.ops| => Renamed(c.ops, p, c.temps)),
       temps := if st.max + 1 >= 0 then st.max + 1 else 0)
  }

  // ---- the temporaries that hold a slot

  /** owner[i] is the temporary that holds slot i, for each slot that is taken; it knows the slot. */
  ghost predicate Holds(st: Slots, owner: seq<nat>, T: nat) {
    && Sized(st, T) && |owner| == T && -1 <= st.max < T
    && (forall i {:trigger st.taken[i]} {:trigger owner[i]} :: 0 <= i < T && st.taken[i] ==>
          owner[i] < T && st.valid[owner[i]] && st.slot[owner[i]] == i)
    && (forall t {:trigger st.slot[t]} {:trigger st.valid[t]} :: 0 <= t < T && st.valid[t] ==> st.slot[t] <= st.max)
  }

  ghost predicate Held(st: Slots, owner: seq<nat>, t: nat) {
    && t < |st.valid| && t < |st.slot| && st.valid[t]
    && st.slot[t] < |st.taken| && st.taken[st.slot[t]]
    && st.slot[t] < |owner| && owner[st.slot[t]] == t
  }

  /** Temporaries keep the slots they have been given. */
  ghost predicate Extends(st: Slots, st': Slots, T: nat) {
    && Sized(st, T) && Sized(st', T) && st.max <= st'.max
    && forall t {:trigger st'.slot[t]} {:trigger st'.valid[t]} :: 0 <= t < T && st.valid[t] ==>
         st'.valid[t] && st'.slot[t] == st.slot[t]
  }

  /** From (st, owner) to (u, owner'), by giving slots to those in used that had none. */
  ghost predicate Grows(st: Slots, owner: seq<nat>, u: Slots, owner': seq<nat>, used: set<nat>, T: nat) {
    && Holds(u, owner', T) && Extends(st, u, T)
    && (forall t {:trigger u.valid[t]} :: 0 <= t < T ==> (u.valid[t] <==> st.valid[t] || t in used))
    && (forall t: nat {:trigger Held(u, owner', t)} :: t < T && (Held(st, owner, t) || (u.valid[t] && !st.valid[t])) ==>
          Held(u, owner', t))
  }

  lemma GrowsTrans(st: Slots, owner: seq<nat>, u: Slots, owner': seq<nat>, used: set<nat>,
                   v: Slots, owner'': seq<nat>, used': set<nat>, T: nat)
    requires Grows(st, owner, u, owner', used, T) && Grows(u, owner', v, owner'', used', T)
    ensures Grows(st, owner, v, owner'', used + used', T)
  {
    forall t: nat | t < T
      ensures (v.valid[t] <==> st.valid[t] || t in used + used')
      ensures Held(st, owner, t) || (v.valid[t] && !st.valid[t]) ==> Held(v, owner'', t)
    {
      assert u.valid[t] <==> st.valid[t] || t in used;
      assert Held(st, owner, t) ==> Held(u, owner', t);
    }
  }

  lemma {:induction false} FitsUpto(s: set<nat>, n: nat)
    requires forall x :: x in s ==> x < n
    ensures |s| <= n
  {
    if n == 0 {
      assert s == {};
    } else {
      FitsUpto(s - {n - 1}, n - 1);
    }
  }

  /** The owners of the first n slots, when all of these are taken. */
  ghost function Owners(owner: seq<nat>, n: nat): set<nat>
    requires n <= |owner|
  {
    if n == 0 then {} else Owners(owner, n - 1) + {owner[n - 1]}
  }

  lemma {:induction false} OwnersCount(st: Slots, owner: seq<nat>, T: nat, n: nat)
    requires Holds(st, owner, T) && n <= T && forall i :: 0 <= i < n ==> st.taken[i]
    ensures |Owners(owner, n)| == n
    ensures forall t :: t in Owners(owner, n) ==> t < T && st.valid[t] && st.slot[t] < n
  {
    if n > 0 {
      OwnersCount(st, owner, T, n - 1);
      assert st.taken[n - 1];
      assert owner[n - 1] !in Owners(owner, n - 1);
    }
  }

  /** A temporary without a slot always finds one free. */
  lemma FreeSlot(st: Slots, owner: seq<nat>, T: nat, t: nat)
    requires Holds(st, owner, T) && t < T && !st.valid[t]
    ensures Lowest(st.taken, 0) < T
  {
    if Lowest(st.taken, 0) == T {
      OwnersCount(st, owner, T, T);
      FitsUpto(Owners(owner, T) + {t}, T);
    }
  }

  ghost function OwnerTake(st: Slots, owner: seq<nat>, t: nat): seq<nat> {
    var i := Lowest(st.taken, 0);
    if i < |owner| then owner[i := t] else owner
  }

  lemma TakeHolds(st: Slots, owner: seq<nat>, T: nat, t: nat)
    requires Holds(st, owner, T) && t < T && !st.valid[t]
    ensures var (u, i) := Take(st);
      && i < T && !st.taken[i] && i <= u.max
      && Grows(st, owner, Assign(u, t, i), OwnerTake(st, owner, t), {t}, T)
  {
    FreeSlot(st, owner, T, t);
    var (u, i) := Take(st);
    var v, owner' := Assign(u, t, i), OwnerTake(st, owner, t);
    forall x: nat | x < T && (Held(st, owner, x) || (v.valid[x] && !st.valid[x]))
      ensures Held(v, owner', x)
    {
      assert x == t ==> v.slot[x] == i;
    }
  }

  ghost function OwnerUse(st: Slots, owner: seq<nat>, o: Operand): seq<nat>
    requires IsTemp(o) ==> o.n < |st.valid|
  {
    if IsTemp(o) && !st.valid[o.n] then OwnerTake(st, owner, o.n) else owner
  }

  lemma UseHolds(st: Slots, owner: seq<nat>, o: Operand, T: nat)
    requires Holds(st, owner, T) && (IsTemp(o) ==> o.n < T)
    ensures Grows(st, owner, Use(st, o, T), OwnerUse(st, owner, o), TempSet(o), T)
  {
    if IsTemp(o) && !st.valid[o.n] {
      TakeHolds(st, owner, T, o.n);
    }
  }

  ghost function OwnerUses(st: Slots, owner: seq<nat>, op: Op, T: nat): seq<nat>
    requires Sized(st, T) && TempsBelow(op, T)
  {
    var a := Use(st, Op1(op), T);
    var b := Use(a, Op2(op), T);
    OwnerUse(b, OwnerUse(a, OwnerUse(st, owner, Op1(op)), Op2(op)), Ext(op))
  }

  lemma UseAllHolds(st: Slots, owner: seq<nat>, op: Op, T: nat)
    requires Holds(st, owner, T) && TempsBelow(op, T)
    ensures Grows(st, owner, UseAll(st, op, T), OwnerUses(st, owner, op, T), UseSet(op), T)
  {
    var a := Use(st, Op1(op), T);
    var b := Use(a, Op2(op), T);
    var wa := OwnerUse(st, owner, Op1(op));
    var wb := OwnerUse(a, wa, Op2(op));
    UseHolds(st, owner, Op1(op), T);
    UseHolds(a, wa, Op2(op), T);
    UseHolds(b, wb, Ext(op), T);
    GrowsTrans(st, owner, a, wa, TempSet(Op1(op)), b, wb, TempSet(Op2(op)), T);
    GrowsTrans(st, owner, b, wb, TempSet(Op1(op)) + TempSet(Op2(op)), UseAll(st, op, T), OwnerUses(st, owner, op, T),
      TempSet(Ext(op)), T);
  }

  ghost function OwnerSettle(st: Slots, owner: seq<nat>, r: Result): seq<nat>
    requires HasTemp(r) ==> r.n < |st.valid|
  {
    if HasTemp(r) && !st.valid[r.n] && !Flagged(r) then OwnerTake(st, owner, r.n) else owner
  }

  /** The slot written is the temporary's own, if it has one, and no other temporary holds it. */
  ghost predicate Writes(st: Slots, owner: seq<nat>, r: Result, i: nat, T: nat) {
    HasTemp(r) ==>
      && i < T && r.n < |st.valid| && r.n < |st.slot|
      && (st.valid[r.n] ==> i == st.slot[r.n])
      && forall t: nat {:trigger Held(st, owner, t)} :: Held(st, owner, t) && t != r.n ==> st.slot[t] != i
  }

  lemma SettleHolds(st: Slots, owner: seq<nat>, r: Result, first: bool, T: nat)
    requires Holds(st, owner, T) && (HasTemp(r) ==> r.n < T && (st.valid[r.n] ==> Held(st, owner, r.n)))
    ensures var (u, i) := Settle(st, r, first, T);
      && Holds(u, OwnerSettle(st, owner, r), T) && Extends(st, u, T)
      && Writes(st, owner, r, i, T) && (HasTemp(r) ==> i <= u.max)
      && (forall t: nat {:trigger Held(u, OwnerSettle(st, owner, r), t)} ::
            Held(st, owner, t) && !(first && HasTemp(r) && t == r.n) ==> Held(u, OwnerSettle(st, owner, r), t))
      && (HasTemp(r) && !Flagged(r) ==>
            u.valid[r.n] && u.slot[r.n] == i && (!first ==> Held(u, OwnerSettle(st, owner, r), r.n)))
      && (forall t {:trigger u.valid[t]} :: 0 <= t < T ==>
            (u.valid[t] <==> st.valid[t] || (HasTemp(r) && t == r.n && !Flagged(r))))
  {
    if HasTemp(r) && !st.valid[r.n] {
      TakeHolds(st, owner, T, r.n);
      var (v, i) := Take(st);
      if Flagged(r) {
        assert v.taken[i := false] == st.taken;
      }
    }
  }

  // ---- the whole scan

  ghost function OwnerAfter(ops: seq<Op>, p: nat, T: nat): (r: seq<nat>)
    requires p <= |ops| && forall k {:trigger ops[k]} :: 0 <= k < |ops| ==> TempsBelow(ops[k], T)
    decreases |ops| - p
  {
    if p == |ops| then seq(T, _ => 0)
    else
      var st := UseAll(After(ops, p + 1, T), ops[p], T);
      OwnerSettle(st, OwnerUses(After(ops, p + 1, T), OwnerAfter(ops, p + 1, T), ops[p], T), ResultOf(ops[p]))
  }

  ghost function OwnerMid(ops: seq<Op>, p: nat, T: nat): (r: seq<nat>)
    requires p < |ops| && forall k {:trigger ops[k]} :: 0 <= k < |ops| ==> TempsBelow(ops[k], T)
  {
    OwnerUses(After(ops, p + 1, T), OwnerAfter(ops, p + 1, T), ops[p], T)
  }

  /** Some op from p on reads t. */
  ghost predicate UsedFrom(ops: seq<Op>, t: nat, p: nat) {
    exists q :: p <= q < |ops| && Uses(ops[q], t)
  }

  /** A temporary that is read at or after an op, and first defined before it, holds its slot there. */
  ghost predicate Keeps(ops: seq<Op>, st: Slots, owner: seq<nat>, p: nat, T: nat)
    requires Sized(st, T)
  {
    && Holds(st, owner, T)
    && (forall t: nat {:trigger st.valid[t]} :: t < T && st.valid[t] && First(ops, t) < p ==> Held(st, owner, t))
    && (forall t: nat {:trigger st.valid[t]} :: t < T && UsedFrom(ops, t, p) ==> st.valid[t])
  }

  lemma MidKeeps(ops: seq<Op>, p: nat, T: nat)
    requires p < |ops| && forall k {:trigger ops[k]} :: 0 <= k < |ops| ==> TempsBelow(ops[k], T)
    requires Keeps(ops, After(ops, p + 1, T), OwnerAfter(ops, p + 1, T), p + 1, T)
    ensures Extends(After(ops, p + 1, T), Mid(ops, p, T), T) && Holds(Mid(ops, p, T), OwnerMid(ops, p, T), T)
    ensures forall t: nat {:trigger Mid(ops, p, T).valid[t]} ::
      t < T && Mid(ops, p, T).valid[t] && First(ops, t) <= p ==>
      Held(Mid(ops, p, T), OwnerMid(ops, p, T), t)
    ensures forall t: nat {:trigger Mid(ops, p, T).valid[t]} :: t < T && UsedFrom(ops, t, p) ==> Mid(ops, p, T).valid[t]
  {
    var st, owner := After(ops, p + 1, T), OwnerAfter(ops, p + 1, T);
    var u, owner' := Mid(ops, p, T), OwnerMid(ops, p, T);
    UseAllHolds(st, owner, ops[p], T);
    forall t: nat | t < T && u.valid[t] && First(ops, t) <= p ensures Held(u, owner', t) {
      assert st.valid[t] ==> Held(st, owner, t);
    }
    forall t: nat | t < T && UsedFrom(ops, t, p) ensures u.valid[t] {
      var q :| p <= q < |ops| && Uses(ops[q], t);
      if q > p {
        assert UsedFrom(ops, t, p + 1);
        assert st.valid[t];
      }
    }
  }

  lemma {:induction false} AfterKeeps(ops: seq<Op>, p: nat, T: nat)
    requires p <= |ops| && forall k {:trigger ops[k]} :: 0 <= k < |ops| ==> TempsBelow(ops[k], T)
    ensures Keeps(ops, After(ops, p, T), OwnerAfter(ops, p, T), p, T)
    decreases |ops| - p
  {
    if p < |ops| {
      AfterKeeps(ops, p + 1, T);
      MidKeeps(ops, p, T);
      var st, owner, r := Mid(ops, p, T), OwnerMid(ops, p, T), ResultOf(ops[p]);
      assert HasTemp(r) ==> Defines(ops[p], r.n) && First(ops, r.n) <= p;
      SettleHolds(st, owner, r, IsFirst(ops, p), T);
      AfterSettled(ops, p, T, st, owner, After(ops, p, T), OwnerAfter(ops, p, T));
    }
  }

  lemma AfterSettled(ops: seq<Op>, p: nat, T: nat, st: Slots, owner: seq<nat>, u: Slots, owner': seq<nat>)
    requires p < |ops| && Sized(st, T) && Holds(u, owner', T) && Extends(st, u, T)
    requires var r := ResultOf(ops[p]);
      && (forall t: nat {:trigger st.valid[t]} :: t < T && st.valid[t] && First(ops, t) <= p ==> Held(st, owner, t))
      && (forall t: nat {:trigger st.valid[t]} :: t < T && UsedFrom(ops, t, p) ==> st.valid[t])
      && (forall t: nat {:trigger Held(u, owner', t)} ::
            Held(st, owner, t) && !(IsFirst(ops, p) && HasTemp(r) && t == r.n) ==> Held(u, owner', t))
      && (HasTemp(r) && !Flagged(r) && !IsFirst(ops, p) && r.n < T ==> Held(u, owner', r.n))
      && (forall t {:trigger u.valid[t]} :: 0 <= t < T ==>
            (u.valid[t] <==> st.valid[t] || (HasTemp(r) && t == r.n && !Flagged(r))))
    ensures Keeps(ops, u, owner', p, T)
  {
    forall t: nat | t < T && u.valid[t] && First(ops, t) < p ensures Held(u, owner', t) {
      assert st.valid[t] ==> Held(st, owner, t);
    }
    forall t: nat | t < T && UsedFrom(ops, t, p) ensures u.valid[t] {
      assert st.valid[t];
    }
  }

  lemma ExtendsStep(ops: seq<Op>, p: nat, T: nat)
    requires p < |ops| && forall k {:trigger ops[k]} :: 0 <= k < |ops| ==> TempsBelow(ops[k], T)
    ensures Extends(After(ops, p + 1, T), After(ops, p, T), T)
  {
    AfterKeeps(ops, p + 1, T);
    MidKeeps(ops, p, T);
    MidExtends(ops, p, T);
    ExtendsTrans(After(ops, p + 1, T), Mid(ops, p, T), After(ops, p, T), T);
  }

  lemma ExtendsTrans(a: Slots, b: Slots, c: Slots, T: nat)
    requires Extends(a, b, T) && Extends(b, c, T)
    ensures Extends(a, c, T)
  {
    forall t | 0 <= t < T && a.valid[t] ensures c.valid[t] && c.slot[t] == a.slot[t] {
      assert b.valid[t];
    }
  }

  lemma {:induction false} ExtendsFrom(ops: seq<Op>, p: nat, q: nat, T: nat)
    requires p <= q <= |ops| && forall k {:trigger ops[k]} :: 0 <= k < |ops| ==> TempsBelow(ops[k], T)
    ensures Extends(After(ops, q, T), After(ops, p, T), T)
    decreases q - p
  {
    if p < q {
      ExtendsFrom(ops, p + 1, q, T);
      ExtendsStep(ops, p, T);
      ExtendsTrans(After(ops, q, T), After(ops, p + 1, T), After(ops, p, T), T);
    }
  }

  lemma MidHolds(ops: seq<Op>, p: nat, T: nat)
    requires p < |ops| && forall k {:trigger ops[k]} :: 0 <= k < |ops| ==> TempsBelow(ops[k], T)
    ensures var st, owner, r := Mid(ops, p, T), OwnerMid(ops, p, T), ResultOf(ops[p]);
      Holds(st, owner, T) && (HasTemp(r) ==> r.n < T && (st.valid[r.n] ==> Held(st, owner, r.n)))
  {
    AfterKeeps(ops, p + 1, T);
    MidKeeps(ops, p, T);
    var r := ResultOf(ops[p]);
    assert HasTemp(r) ==> Defines(ops[p], r.n) && First(ops, r.n) <= p;
  }

  lemma SettleExtends(st: Slots, owner: seq<nat>, r: Result, first: bool, T: nat)
    requires Holds(st, owner, T) && (HasTemp(r) ==> r.n < T && (st.valid[r.n] ==> Held(st, owner, r.n)))
    ensures var (u, i) := Settle(st, r, first, T);
      && Extends(st, u, T) && Writes(st, owner, r, i, T) && (HasTemp(r) ==> i <= u.max)
      && (HasTemp(r) && !Flagged(r) ==> u.valid[r.n] && u.slot[r.n] == i)
  {
    SettleHolds(st, owner, r, first, T);
  }

  lemma MidExtends(ops: seq<Op>, p: nat, T: nat)
    requires p < |ops| && forall k {:trigger ops[k]} :: 0 <= k < |ops| ==> TempsBelow(ops[k], T)
    ensures Extends(Mid(ops, p, T), After(ops, p, T), T)
    ensures Writes(Mid(ops, p, T), OwnerMid(ops, p, T), ResultOf(ops[p]), ResultSlot(ops, p, T), T)
    ensures HasTemp(ResultOf(ops[p])) ==> ResultSlot(ops, p, T) <= After(ops, p, T).max
    ensures HasTemp(ResultOf(ops[p])) && !Flagged(ResultOf(ops[p])) ==>
      After(ops, p, T).valid[ResultOf(ops[p]).n] && After(ops, p, T).slot[ResultOf(ops[p]).n] == ResultSlot(ops, p, T)
  {
    MidHolds(ops, p, T);
    SettleExtends(Mid(ops, p, T), OwnerMid(ops, p, T), ResultOf(ops[p]), IsFirst(ops, p), T);
  }

  // ---- what the scan amounts to: a colouring

  /** The result of op p goes to slot i, clear of every temporary that is read from p on and was first
      defined before p; and to the temporary's own slot if that one is read from p on. */
  ghost predicate Clear(ops: seq<Op>, p: nat, m: seq<nat>, i: nat)
    requires p < |ops|
  {
    var r := ResultOf(ops[p]);
    HasTemp(r) ==>
      && (r.n < |m| && UsedFrom(ops, r.n, p) ==> i == m[r.n])
      && forall t: nat {:trigger m[t]} :: t < |m| && First(ops, t) < p && UsedFrom(ops, t, p) && t != r.n ==> m[t] != i
  }

  function Recolour(op: Op, m: seq<nat>, i: nat): Op
    requires TempsBelow(op, |m|)
  {
    Rebuild(op, Mapped(m, Op1(op)), Mapped(m, Op2(op)), Mapped(m, Ext(op)), ResultWith(ResultOf(op), i))
  }

  /** new_ is old_ with the temporaries read through m and the result of each op p put in slot to[p]. */
  ghost predicate Coloured(old_: Code, new_: Code, m: seq<nat>, to: seq<nat>) {
    && WellNumbered(old_) && |m| == old_.temps && |to| == |new_.ops| == |old_.ops|
    && new_.brkCont == old_.brkCont && new_.tryCatch == old_.tryCatch
    && forall p: nat {:trigger old_.ops[p]} {:trigger new_.ops[p]} :: p < |old_.ops| ==>
         new_.ops[p] == Recolour(old_.ops[p], m, to[p]) && Clear(old_.ops, p, m, to[p])
  }

  lemma MidFinal(ops: seq<Op>, p: nat, T: nat)
    requires p < |ops| && forall k {:trigger ops[k]} :: 0 <= k < |ops| ==> TempsBelow(ops[k], T)
    ensures Extends(Mid(ops, p, T), After(ops, 0, T), T)
  {
    MidExtends(ops, p, T);
    ExtendsFrom(ops, 0, p, T);
    ExtendsTrans(Mid(ops, p, T), After(ops, p, T), After(ops, 0, T), T);
  }

  lemma ReadsColoured(ops: seq<Op>, p: nat, T: nat)
    requires p < |ops| && forall k {:trigger ops[k]} :: 0 <= k < |ops| ==> TempsBelow(ops[k], T)
    ensures Renamed(ops, p, T) == Recolour(ops[p], After(ops, 0, T).slot, ResultSlot(ops, p, T))
  {
    AfterKeeps(ops, p + 1, T);
    UseAllHolds(After(ops, p + 1, T), OwnerAfter(ops, p + 1, T), ops[p], T);
    MidFinal(ops, p, T);
    forall o: Operand | o == Op1(ops[p]) || o == Op2(ops[p]) || o == Ext(ops[p])
      ensures Mapped(Mid(ops, p, T).slot, o) == Mapped(After(ops, 0, T).slot, o)
    {
      if IsTemp(o) {
        assert o.n in UseSet(ops[p]);
        assert Mid(ops, p, T).valid[o.n];
      }
    }
  }

  lemma ResultClear(ops: seq<Op>, p: nat, T: nat)
    requires p < |ops| && forall k {:trigger ops[k]} :: 0 <= k < |ops| ==> TempsBelow(ops[k], T)
    ensures Clear(ops, p, After(ops, 0, T).slot, ResultSlot(ops, p, T))
  {
    var m, i, r := After(ops, 0, T).slot, ResultSlot(ops, p, T), ResultOf(ops[p]);
    var mid, owner := Mid(ops, p, T), OwnerMid(ops, p, T);
    AfterKeeps(ops, p + 1, T);
    MidKeeps(ops, p, T);
    MidExtends(ops, p, T);
    MidFinal(ops, p, T);
    if HasTemp(r) {
      forall t: nat {:trigger m[t]} | t < T && First(ops, t) < p && UsedFrom(ops, t, p) && t != r.n ensures m[t] != i {
        assert mid.valid[t];
        assert Held(mid, owner, t);
      }
      if UsedFrom(ops, r.n, p) {
        assert mid.valid[r.n];
      }
    }
  }

  /** The slots that the scan has given out. */
  ghost function ResultSlots(ops: seq<Op>, T: nat): (r: seq<nat>)
    requires forall k {:trigger ops[k]} :: 0 <= k < |ops| ==> TempsBelow(ops[k], T)
    ensures |r| == |ops|
  {
    seq(|ops|, p requires 0 <= p < |ops| => ResultSlot(ops, p, T))
  }

  lemma PackedColoured(c: Code)
    requires WellNumbered(c)
    ensures Coloured(c, Packed(c), After(c.ops, 0, c.temps).slot, ResultSlots(c.ops, c.temps))
  {
    forall p: nat | p < |c.ops|
      ensures var m, i := After(c.ops, 0, c.temps).slot, ResultSlots(c.ops, c.temps)[p];
        Packed(c).ops[p] == Recolour(c.ops[p], m, i) && Clear(c.ops, p, m, i)
    {
      ReadsColoured(c.ops, p, c.temps);
      ResultClear(c.ops, p, c.temps);
    }
  }

  // ---- live ranges

  /** Each live range lies within the linear interval from first definition to last use. */
  ghost predicate LinearRanges(c: Code, live: seq<set<nat>>)
    requires |live| == |c.ops|
  {
    && (forall p: nat, t: nat {:trigger t in live[p]} :: p < |c.ops| && t in live[p] ==>
          First(c.ops, t) < p && UsedFrom(c.ops, t, p))
    && (forall p: nat, q: nat, t: nat {:trigger Next(c, p, q), t in live[q]} :: p < |c.ops| && q < |c.ops| ==>
          Next(c, p, q) && t in live[q] && Defines(c.ops[p], t) ==> UsedFrom(c.ops, t, p))
  }

  // ---- a colouring that respects the live ranges changes nothing

  ghost predicate SameTemps(m: seq<nat>, live: set<nat>, s': Store, s: Store) {
    forall t: nat {:trigger t in live} :: t in live ==> t < |m| && Temp(s', m[t]) == Temp(s, t)
  }

  ghost predicate Agree(c: Code, m: seq<nat>, live: seq<set<nat>>, s': State, s: State)
    requires |live| == |c.ops|
  {
    && s' == s.(temps := s'.temps)
    && (!s.done && 0 <= s.pc < |c.ops| ==> SameTemps(m, live[s.pc], s'.temps, s.temps))
  }

  lemma ReadMapped(env: Env, m: seq<nat>, live: set<nat>, s': State, s: State, o: Operand)
    requires SameTemps(m, live, s'.temps, s.temps) && s' == s.(temps := s'.temps)
    requires IsTemp(o) ==> o.n in live
    ensures IsTemp(o) ==> o.n < |m|
    ensures Read(env, s', Mapped(m, o)) == Read(env, s, o)
    ensures ArgOf(s'.temps, Mapped(m, o)) == ArgOf(s.temps, o)
  {
  }

  lemma EventMapped(m: seq<nat>, live: set<nat>, s': Store, s: Store, op: Op, i: nat)
    requires SameTemps(m, live, s', s) && op.Exec? && TempsBelow(op, |m|)
    requires forall t: nat :: Uses(op, t) ==> t in live
    ensures Recolour(op, m, i).Exec? && RunEvent(s', Recolour(op, m, i)) == RunEvent(s, op)
  {
    assert forall o: Operand :: (o == Op1(op) || o == Op2(op) || o == Ext(op)) && IsTemp(o) ==> Uses(op, o.n);
  }

  lemma {:induction false} UnwindColoured(c: Code, c': Code, m: seq<nat>, to: seq<nat>, live: set<nat>, s': Store,
          s: Store,
                       trace: seq<Event>, loop: int, levels: int)
    requires Coloured(c, c', m, to) && SameTemps(m, live, s', s)
    requires forall k, t: nat {:trigger OnChain(c, loop, k), FreesAt(c, c.brkCont[k].brk, t)} ::
      0 <= k < |c.brkCont| && OnChain(c, loop, k) && FreesAt(c, c.brkCont[k].brk, t) ==> t in live
    ensures Unwind(c', s', trace, loop, levels) == Unwind(c, s, trace, loop, levels)
    decreases levels
  {
    if 0 <= loop < |c.brkCont| && levels > 1 {
      var b := c.brkCont[loop].brk;
      var freed := trace;
      ChainStart(c, loop);
      ChainUp(c, loop);
      if b < |c.ops| {
        assert c'.ops[b] == Recolour(c.ops[b], m, to[b]);
        if IsFree(c.ops[b]) {
          assert forall t: nat :: Uses(c.ops[b], t) ==> FreesAt(c, c.brkCont[loop].brk, t);
          EventMapped(m, live, s', s, c.ops[b], to[b]);
          freed := trace + [RunEvent(s, c.ops[b])];
        }
      }
      forall k, t: nat | 0 <= k < |c.brkCont| && OnChain(c, c.brkCont[loop].parent, k)
        && FreesAt(c, c.brkCont[k].brk, t)
        ensures t in live
      {
        assert OnChain(c, loop, k);
      }
      UnwindColoured(c, c', m, to, live, s', s, freed, c.brkCont[loop].parent, levels - 1);
    }
  }

  /** The result of op p is written, with the same value, on both sides. */
  ghost predicate BothWrite(s': Store, s: Store, r: Result, i: nat, u': Store, u: Store) {
    exists v: Value :: u' == Write(s', ResultWith(r, i), v) && u == Write(s, r, v)
  }

  /** u' and u follow s' and s by the same step of op p: the run ends, or control goes on with the
      result written, or an exception is caught with nothing written. */
  ghost predicate SameMove(c: Code, p: nat, s': State, s: State, i: nat, u': State, u: State)
    requires p < |c.ops|
  {
    && u' == u.(temps := u'.temps)
    && ( || u.done
         || (Next(c, p, u.pc) && BothWrite(s'.temps, s.temps, ResultOf(c.ops[p]), i, u'.temps, u.temps))
         || (c.ops[p].Exec? && u.pc == Handler(c.tryCatch, p) && u'.temps == s'.temps && u.temps == s.temps))
  }

  /** Everything op p reads is live there, and both stores agree on it. */
  ghost predicate Ready(c: Code, m: seq<nat>, p: nat, live: set<nat>, s': State, s: State) {
    && p < |c.ops| && s.pc == p && !s.done && TempsBelow(c.ops[p], |m|)
    && SameTemps(m, live, s'.temps, s.temps) && s' == s.(temps := s'.temps)
    && forall t: nat {:trigger Reads(c, p, t)} :: Reads(c, p, t) ==> t in live
  }

  lemma BothWriteBy(s': Store, s: Store, r: Result, i: nat, v: Value)
    ensures BothWrite(s', s, r, i, Write(s', ResultWith(r, i), v), Write(s, r, v))
  {
  }

  lemma PlainMove(env: Env, c: Code, c': Code, m: seq<nat>, p: nat, live: set<nat>, s': State, s: State, i: nat)
    requires Ready(c, m, p, live, s', s)
    requires var op := c.ops[p]; !op.Exec? && !op.Brk? && !op.Cont?
    ensures SameMove(c, p, s', s, i, StepOp(env, c', Recolour(c.ops[p], m, i), s'), StepOp(env, c, c.ops[p], s))
  {
    var op := c.ops[p];
    var x := Op1(op);
    assert IsTemp(x) ==> Reads(c, p, x.n);
    ReadMapped(env, m, live, s', s, x);
    var v := Read(env, s, x);
    BothWriteBy(s'.temps, s.temps, ResultOf(op), i, v);
    BothWriteBy(s'.temps, s.temps, ResultOf(op), i, ToBool(v));
  }

  lemma ExecMove(env: Env, c: Code, c': Code, m: seq<nat>, p: nat, live: set<nat>, s': State, s: State, i: nat)
    requires Ready(c, m, p, live, s', s) && c.ops[p].Exec? && c'.tryCatch == c.tryCatch
    ensures SameMove(c, p, s', s, i, StepOp(env, c', Recolour(c.ops[p], m, i), s'), StepOp(env, c, c.ops[p], s))
  {
    var op := c.ops[p];
    assert forall t: nat :: Uses(op, t) ==> Reads(c, p, t);
    EventMapped(m, live, s'.temps, s.temps, op, i);
    var t := s.trace + [RunEvent(s.temps, op)];
    if env.outcome(t).Normal? {
      BothWriteBy(s'.temps, s.temps, op.result, i, env.outcome(t).v);
    }
  }

  lemma LeaveMove(env: Env, c: Code, c': Code, m: seq<nat>, to: seq<nat>, p: nat, live: set<nat>, s': State, s: State,
          i: nat)
    requires Coloured(c, c', m, to) && Ready(c, m, p, live, s', s) && (c.ops[p].Brk? || c.ops[p].Cont?)
    ensures SameMove(c, p, s', s, i, StepOp(env, c', Recolour(c.ops[p], m, i), s'), StepOp(env, c, c.ops[p], s))
  {
    var op := c.ops[p];
    assert IsTemp(op.levels) ==> Reads(c, p, op.levels.n);
    ReadMapped(env, m, live, s', s, op.levels);
    forall k, t: nat | 0 <= k < |c.brkCont| && OnChain(c, op.loop, k) && FreesAt(c, c.brkCont[k].brk, t)
      ensures t in live
    {
      assert Reads(c, p, t);
    }
    UnwindOnChain(c, s.temps, s.trace, op.loop, Read(env, s, op.levels));
    UnwindColoured(c, c', m, to, live, s'.temps, s.temps, s.trace, op.loop, Read(env, s, op.levels));
    BothWriteBy(s'.temps, s.temps, NoResult, i, 0);
  }

  lemma OpMove(env: Env, c: Code, c': Code, m: seq<nat>, to: seq<nat>, p: nat, live: set<nat>, s': State, s: State)
    requires Coloured(c, c', m, to) && Ready(c, m, p, live, s', s)
    ensures SameMove(c, p, s', s, to[p], Step(env, c', s'), Step(env, c, s))
  {
    assert c'.ops[p] == Recolour(c.ops[p], m, to[p]);
    if c.ops[p].Exec? {
      ExecMove(env, c, c', m, p, live, s', s, to[p]);
    } else if c.ops[p].Brk? || c.ops[p].Cont? {
      LeaveMove(env, c, c', m, to, p, live, s', s, to[p]);
    } else {
      PlainMove(env, c, c', m, p, live, s', s, to[p]);
    }
  }

  lemma WriteAgrees(c: Code, m: seq<nat>, live: seq<set<nat>>, p: nat, q: nat, i: nat, s': Store, s: Store, u': Store,
          u: Store)
    requires WellNumbered(c) && |m| == c.temps && Liveness(c, live) && LinearRanges(c, live)
    requires p < |c.ops| && q < |c.ops| && Next(c, p, q) && Clear(c.ops, p, m, i)
    requires SameTemps(m, live[p], s', s) && BothWrite(s', s, ResultOf(c.ops[p]), i, u', u)
    ensures SameTemps(m, live[q], u', u)
  {
    var r := ResultOf(c.ops[p]);
    assert TempsBelow(c.ops[p], c.temps);
    forall t: nat | t in live[q] ensures t < |m| && Temp(u', m[t]) == Temp(u, t) {
      if Defines(c.ops[p], t) {
        assert UsedFrom(c.ops, t, p);
      } else {
        assert t in live[p];
      }
    }
  }

  lemma StepAgrees(env: Env, c: Code, c': Code, m: seq<nat>, to: seq<nat>, live: seq<set<nat>>, s': State, s: State)
    requires Coloured(c, c', m, to) && Liveness(c, live) && LinearRanges(c, live) && Agree(c, m, live, s', s)
    ensures Agree(c, m, live, Step(env, c', s'), Step(env, c, s))
  {
    if !s.done && 0 <= s.pc < |c.ops| {
      var p := s.pc;
      var u', u := Step(env, c', s'), Step(env, c, s);
      assert TempsBelow(c.ops[p], |m|);
      OpMove(env, c, c', m, to, p, live[p], s', s);
      if !u.done && 0 <= u.pc < |c.ops| {
        if Next(c, p, u.pc) && BothWrite(s'.temps, s.temps, ResultOf(c.ops[p]), to[p], u'.temps, u.temps) {
          assert c'.ops[p] == Recolour(c.ops[p], m, to[p]);
          WriteAgrees(c, m, live, p, u.pc, to[p], s'.temps, s.temps, u'.temps, u.temps);
        } else {
          assert forall t: nat :: t in live[u.pc] ==> t in live[p];
        }
      }
    }
  }

  ghost function AgreeRel(c: Code, m: seq<nat>, live: seq<set<nat>>): (State, State) -> bool
    requires |live| == |c.ops|
  {
    (s', s) => Agree(c, m, live, s', s)
  }

  lemma EntryDead(c: Code, live: seq<set<nat>>)
    requires |live| == |c.ops| && LinearRanges(c, live)
    ensures |c.ops| > 0 ==> forall t: nat :: t !in live[0]
  {
  }

  lemma ColouredPreserves(env: Env, c: Code, c': Code, m: seq<nat>, to: seq<nat>, live: seq<set<nat>>)
    requires Coloured(c, c', m, to) && Liveness(c, live) && LinearRanges(c, live)
    ensures Runs(env, c') == Runs(env, c)
  {
    var R := AgreeRel(c, m, live);
    forall s': State, s: State | R(s', s)
      ensures Reaches(Stepper(env, c')(s'), Stepper(env, c), s, R)
    {
      StepAgrees(env, c, c', m, to, live, s', s);
      RunNext(env, c, s, 0, s);
      assert R(Stepper(env, c')(s'), Run(Stepper(env, c), s, 1));
    }
    EntryDead(c, live);
    MachineLawful(env, c);
    MacroStepSound(Stepper(env, c'), Observe(), Stepper(env, c), Observe(), R, Init(), Init());
  }

  /** The renaming preserves every run whenever each temporary's live range lies within the linear
      interval from its first definition to its last use. */
  lemma PackedPreserves(env: Env, c: Code, live: seq<set<nat>>)
    requires WellNumbered(c) && Liveness(c, live) && LinearRanges(c, live)
    ensures Runs(env, Packed(c)) == Runs(env, c)
  {
    PackedColoured(c);
    ColouredPreserves(env, c, Packed(c), After(c.ops, 0, c.temps).slot, ResultSlots(c.ops, c.temps), live);
  }

  // ---- how many slots are needed

  lemma UsesBelow(ops: seq<Op>, p: nat, T: nat, t: nat)
    requires p < |ops| && forall k {:trigger ops[k]} :: 0 <= k < |ops| ==> TempsBelow(ops[k], T)
    requires Uses(ops[p], t)
    ensures t < T && After(ops, 0, T).slot[t] <= After(ops, 0, T).max
  {
    AfterKeeps(ops, 0, T);
    assert UsedFrom(ops, t, 0);
    assert After(ops, 0, T).valid[t];
  }

  lemma ResultBelow(ops: seq<Op>, p: nat, T: nat)
    requires p < |ops| && forall k {:trigger ops[k]} :: 0 <= k < |ops| ==> TempsBelow(ops[k], T)
    ensures HasTemp(ResultOf(ops[p])) ==> ResultSlot(ops, p, T) <= After(ops, 0, T).max
  {
    MidExtends(ops, p, T);
    ExtendsFrom(ops, 0, p, T);
  }

  lemma RecolourBelow(op: Op, m: seq<nat>, i: nat, T: nat)
    requires TempsBelow(op, |m|) && (HasTemp(ResultOf(op)) ==> i < T)
    requires forall t: nat {:trigger Uses(op, t)} :: Uses(op, t) ==> t < |m| && m[t] < T
    ensures TempsBelow(Recolour(op, m, i), T)
  {
    assert forall o: Operand :: (o == Op1(op) || o == Op2(op) || o == Ext(op)) && IsTemp(o) ==> Uses(op, o.n);
  }

  /** The new count bounds every slot in use and never exceeds the old count. */
  lemma PackedCount(c: Code)
    requires WellNumbered(c)
    ensures Packed(c).temps <= c.temps && WellNumbered(Packed(c))
  {
    var T, c' := c.temps, Packed(c);
    var m := After(c.ops, 0, T).slot;
    AfterKeeps(c.ops, 0, T);
    forall p | 0 <= p < |c'.ops| ensures TempsBelow(c'.ops[p], c'.temps) {
      assert TempsBelow(c.ops[p], T);
      ReadsColoured(c.ops, p, T);
      ResultBelow(c.ops, p, T);
      forall t: nat {:trigger Uses(c.ops[p], t)} | Uses(c.ops[p], t) ensures t < |m| && m[t] < c'.temps {
        UsesBelow(c.ops, p, T, t);
      }
      RecolourBelow(c.ops[p], m, ResultSlot(c.ops, p, T), c'.temps);
    }
  }

  /** Every temporary is defined before or where it is first read, and its first value is read unless
      the result is flagged as unused. */
  ghost predicate WellUsed(ops: seq<Op>) {
    && (forall q: nat, t: nat {:trigger Uses(ops[q], t)} :: q < |ops| && Uses(ops[q], t) ==> First(ops, t) <= q)
    && (forall t: nat {:trigger First(ops, t)} :: First(ops, t) < |ops| && !Flagged(ResultOf(ops[First(ops, t)])) ==>
          UsedFrom(ops, t, First(ops, t)))
  }

  /** Some op from p on reads t or gives it a value that is not flagged as unused. */
  ghost predicate MentionedFrom(ops: seq<Op>, t: nat, p: nat) {
    exists q {:trigger ops[q]} ::
      p <= q < |ops| && (Uses(ops[q], t) || (Defines(ops[q], t) && !Flagged(ResultOf(ops[q]))))
  }

  /** The temporaries whose intervals meet op p. */
  ghost function Overlap(ops: seq<Op>, p: nat, T: nat): set<nat>
    requires p < |ops|
  {
    set t: nat {:trigger t in Upto(T)} | t in Upto(T) && First(ops, t) <= p
      && (MentionedFrom(ops, t, p) || Defines(ops[p], t))
  }

  function Upto(n: nat): (r: set<nat>)
    ensures |r| == n && forall i {:trigger i in r} :: i in r <==> 0 <= i < n
  {
    if n == 0 then {} else Upto(n - 1) + {n - 1}
  }

  /** After the ops from p on, temporary t has a slot just when it is mentioned there, and still holds it only when it
      was first defined before p. */
  ghost predicate Tight(ops: seq<Op>, p: nat, T: nat, t: nat)
    requires p <= |ops| && forall k {:trigger ops[k]} :: 0 <= k < |ops| ==> TempsBelow(ops[k], T)
  {
    && (Held(After(ops, p, T), OwnerAfter(ops, p, T), t) ==> First(ops, t) < p)
    && (t < T ==> (After(ops, p, T).valid[t] <==> MentionedFrom(ops, t, p)))
  }

  lemma MentionedStep(ops: seq<Op>, t: nat, p: nat)
    requires p < |ops|
    ensures MentionedFrom(ops, t, p) <==>
      Uses(ops[p], t) || (Defines(ops[p], t) && !Flagged(ResultOf(ops[p]))) || MentionedFrom(ops, t, p + 1)
  {
    if MentionedFrom(ops, t, p) {
      var q :| p <= q < |ops| && (Uses(ops[q], t) || (Defines(ops[q], t) && !Flagged(ResultOf(ops[q]))));
      assert q == p || p + 1 <= q;
    }
  }

  lemma ValidMid(ops: seq<Op>, p: nat, T: nat, t: nat)
    requires p < |ops| && forall k {:trigger ops[k]} :: 0 <= k < |ops| ==> TempsBelow(ops[k], T)
    requires Tight(ops, p + 1, T, t) && t < T
    ensures Mid(ops, p, T).valid[t] <==> Uses(ops[p], t) || MentionedFrom(ops, t, p + 1)
  {
    AfterKeeps(ops, p + 1, T);
    UseAllHolds(After(ops, p + 1, T), OwnerAfter(ops, p + 1, T), ops[p], T);
    assert After(ops, p + 1, T).valid[t] <==> MentionedFrom(ops, t, p + 1);
  }

  lemma ValidAfter(ops: seq<Op>, p: nat, T: nat, t: nat)
    requires p < |ops| && forall k {:trigger ops[k]} :: 0 <= k < |ops| ==> TempsBelow(ops[k], T)
    requires Tight(ops, p + 1, T, t) && t < T
    ensures After(ops, p, T).valid[t] <==> MentionedFrom(ops, t, p)
  {
    AfterKeeps(ops, p + 1, T);
    MidKeeps(ops, p, T);
    ValidMid(ops, p, T, t);
    MentionedStep(ops, t, p);
    var r := ResultOf(ops[p]);
    assert HasTemp(r) ==> Defines(ops[p], r.n) && First(ops, r.n) <= p;
    SettleHolds(Mid(ops, p, T), OwnerMid(ops, p, T), r, IsFirst(ops, p), T);
  }

  lemma HeldMid(ops: seq<Op>, p: nat, T: nat, t: nat)
    requires p < |ops| && forall k {:trigger ops[k]} :: 0 <= k < |ops| ==> TempsBelow(ops[k], T)
    requires WellUsed(ops) && Tight(ops, p + 1, T, t)
    ensures Held(Mid(ops, p, T), OwnerMid(ops, p, T), t) ==> First(ops, t) <= p
  {
    var st, owner := After(ops, p + 1, T), OwnerAfter(ops, p + 1, T);
    AfterKeeps(ops, p + 1, T);
    UseAllFrom(st, owner, ops[p], T, t);
    assert Held(st, owner, t) ==> First(ops, t) < p + 1;
  }

  /** The first definition of t at op p is read from there on, so t has its slot by then. */
  lemma FirstIsRead(ops: seq<Op>, p: nat, T: nat, t: nat)
    requires p < |ops| && forall k {:trigger ops[k]} :: 0 <= k < |ops| ==> TempsBelow(ops[k], T)
    requires WellUsed(ops) && First(ops, t) == p && Defines(ops[p], t) && !Flagged(ResultOf(ops[p]))
    ensures t < T && Mid(ops, p, T).valid[t]
  {
    assert TempsBelow(ops[p], T);
    assert UsedFrom(ops, t, First(ops, t));
    AfterKeeps(ops, p + 1, T);
    MidKeeps(ops, p, T);
  }

  /** A temporary first defined at f that holds its slot after the result of op p did so before p. */
  lemma HeldSettled(st: Slots, owner: seq<nat>, r: Result, first: bool, T: nat, t: nat, f: nat, p: nat)
    requires Holds(st, owner, T) && (HasTemp(r) ==> r.n < T && (st.valid[r.n] ==> Held(st, owner, r.n)))
    requires Held(Settle(st, r, first, T).0, OwnerSettle(st, owner, r), t)
    requires (Held(st, owner, t) ==> f <= p) && (f == p ==> HasTemp(r) && r.n == t)
    requires HasTemp(r) && r.n == t ==>
      f <= p && (first <==> f == p) && (first && !Flagged(r) ==> st.valid[t])
    ensures f < p
  {
    SettleFrom(st, owner, r, first, T, t);
  }

  lemma HeldAfter(ops: seq<Op>, p: nat, T: nat, t: nat)
    requires p < |ops| && forall k {:trigger ops[k]} :: 0 <= k < |ops| ==> TempsBelow(ops[k], T)
    requires WellUsed(ops) && Tight(ops, p + 1, T, t)
    ensures Held(After(ops, p, T), OwnerAfter(ops, p, T), t) ==> First(ops, t) < p
  {
    if Held(After(ops, p, T), OwnerAfter(ops, p, T), t) {
      if Defines(ops[p], t) && First(ops, t) == p && !Flagged(ResultOf(ops[p])) {
        FirstIsRead(ops, p, T, t);
      }
      AfterKeeps(ops, p + 1, T);
      MidKeeps(ops, p, T);
      HeldMid(ops, p, T, t);
      assert TempsBelow(ops[p], T);
      HeldSettled(Mid(ops, p, T), OwnerMid(ops, p, T), ResultOf(ops[p]), IsFirst(ops, p), T, t, First(ops, t), p);
    }
  }

  lemma UseFrom(st: Slots, owner: seq<nat>, o: Operand, T: nat, t: nat)
    requires Holds(st, owner, T) && (IsTemp(o) ==> o.n < T)
    requires Held(Use(st, o, T), OwnerUse(st, owner, o), t)
    ensures Held(st, owner, t) || t in TempSet(o)
  {
  }

  lemma UseAllFrom(st: Slots, owner: seq<nat>, op: Op, T: nat, t: nat)
    requires Holds(st, owner, T) && TempsBelow(op, T)
    ensures Held(UseAll(st, op, T), OwnerUses(st, owner, op, T), t) ==> Held(st, owner, t) || Uses(op, t)
  {
    if Held(UseAll(st, op, T), OwnerUses(st, owner, op, T), t) {
      var a := Use(st, Op1(op), T);
      var b := Use(a, Op2(op), T);
      var wa := OwnerUse(st, owner, Op1(op));
      var wb := OwnerUse(a, wa, Op2(op));
      UseHolds(st, owner, Op1(op), T);
      UseHolds(a, wa, Op2(op), T);
      UseFrom(b, wb, Ext(op), T, t);
      if Held(b, wb, t) {
        UseFrom(a, wa, Op2(op), T, t);
        if Held(a, wa, t) {
          UseFrom(st, owner, Op1(op), T, t);
        }
      }
    }
  }

  lemma SettleFrom(st: Slots, owner: seq<nat>, r: Result, first: bool, T: nat, t: nat)
    requires Holds(st, owner, T) && (HasTemp(r) ==> r.n < T && (st.valid[r.n] ==> Held(st, owner, r.n)))
    requires Held(Settle(st, r, first, T).0, OwnerSettle(st, owner, r), t)
    ensures Held(st, owner, t) || (HasTemp(r) && t == r.n && !st.valid[t] && !Flagged(r))
    ensures HasTemp(r) && t == r.n && first ==> !st.valid[t]
  {
    if HasTemp(r) && !st.valid[r.n] {
      FreeSlot(st, owner, T, r.n);
    }
  }

  /** Every slot up to max is taken at once after the operands of some op, or wanted by its result. */
  ghost predicate Full(ops: seq<Op>, p: nat, T: nat, n: int)
    requires p < |ops| && forall k {:trigger ops[k]} :: 0 <= k < |ops| ==> TempsBelow(ops[k], T)
  {
    var st, r := Mid(ops, p, T), ResultOf(ops[p]);
    && n < T
    && ( || (forall i :: 0 <= i <= n ==> st.taken[i])
         || (HasTemp(r) && !st.valid[r.n] && forall i :: 0 <= i < n ==> st.taken[i]))
  }

  lemma TakePrefix(st: Slots, owner: seq<nat>, o: Operand, T: nat)
    requires Holds(st, owner, T) && (IsTemp(o) ==> o.n < T)
    ensures var u := Use(st, o, T);
      && (forall i {:trigger u.taken[i]} :: 0 <= i < T && st.taken[i] ==> u.taken[i])
      && (u.max > st.max ==> forall i :: 0 <= i <= u.max ==> u.taken[i])
  {
    if IsTemp(o) && !st.valid[o.n] {
      FreeSlot(st, owner, T, o.n);
    }
  }

  lemma UseAllPrefix(st: Slots, owner: seq<nat>, op: Op, T: nat)
    requires Holds(st, owner, T) && TempsBelow(op, T)
    ensures var u := UseAll(st, op, T); u.max > st.max ==> forall i :: 0 <= i <= u.max ==> u.taken[i]
  {
    var a := Use(st, Op1(op), T);
    var b := Use(a, Op2(op), T);
    var wa := OwnerUse(st, owner, Op1(op));
    var wb := OwnerUse(a, wa, Op2(op));
    UseHolds(st, owner, Op1(op), T);
    UseHolds(a, wa, Op2(op), T);
    TakePrefix(st, owner, Op1(op), T);
    TakePrefix(a, wa, Op2(op), T);
    TakePrefix(b, wb, Ext(op), T);
  }

  /** When the highest slot number goes up, all lower ones are in use. */
  lemma FullWhenRaised(ops: seq<Op>, p: nat, T: nat)
    requires p < |ops| && forall k {:trigger ops[k]} :: 0 <= k < |ops| ==> TempsBelow(ops[k], T)
    ensures After(ops, p, T).max > After(ops, p + 1, T).max ==> Full(ops, p, T, After(ops, p, T).max)
  {
    var st, r := Mid(ops, p, T), ResultOf(ops[p]);
    AfterKeeps(ops, p, T);
    AfterKeeps(ops, p + 1, T);
    MidKeeps(ops, p, T);
    UseAllPrefix(After(ops, p + 1, T), OwnerAfter(ops, p + 1, T), ops[p], T);
    assert After(ops, p, T).max > st.max ==>
      HasTemp(r) && !st.valid[r.n] && After(ops, p, T).max == Lowest(st.taken, 0);
  }

  lemma MaxRises(ops: seq<Op>, p: nat, T: nat)
    requires p < |ops| && forall k {:trigger ops[k]} :: 0 <= k < |ops| ==> TempsBelow(ops[k], T)
    ensures MaxAt(ops, p, T) >= MaxAt(ops, p + 1, T)
    ensures MaxAt(ops, p, T) > MaxAt(ops, p + 1, T) ==> Full(ops, p, T, MaxAt(ops, p, T))
  {
    FullWhenRaised(ops, p, T);
    ExtendsStep(ops, p, T);
  }

  ghost function MaxAt(ops: seq<Op>, p: nat, T: nat): int
    requires p <= |ops| && forall k {:trigger ops[k]} :: 0 <= k < |ops| ==> TempsBelow(ops[k], T)
  {
    After(ops, p, T).max
  }

  lemma {:induction false} FullFrom(ops: seq<Op>, p: nat, T: nat, n: nat) returns (at: nat)
    requires p < |ops| && forall k {:trigger ops[k]} :: 0 <= k < |ops| ==> TempsBelow(ops[k], T)
    requires MaxAt(ops, p, T) == n
    ensures p <= at < |ops| && Full(ops, at, T, n)
    decreases |ops| - p
  {
    MaxRises(ops, p, T);
    if n > MaxAt(ops, p + 1, T) {
      at := p;
    } else {
      at := FullFrom(ops, p + 1, T, n);
    }
  }

  lemma FullSomewhere(ops: seq<Op>, T: nat) returns (at: nat)
    requires forall k {:trigger ops[k]} :: 0 <= k < |ops| ==> TempsBelow(ops[k], T)
    requires After(ops, 0, T).max >= 0
    ensures at < |ops| && Full(ops, at, T, After(ops, 0, T).max)
  {
    at := FullFrom(ops, 0, T, After(ops, 0, T).max);
  }

  lemma {:induction false} AllTight(ops: seq<Op>, p: nat, T: nat, t: nat)
    requires p <= |ops| && forall k {:trigger ops[k]} :: 0 <= k < |ops| ==> TempsBelow(ops[k], T)
    requires WellUsed(ops)
    ensures Tight(ops, p, T, t)
    decreases |ops| - p
  {
    if p < |ops| {
      AllTight(ops, p + 1, T, t);
      HeldAfter(ops, p, T, t);
      if t < T {
        ValidAfter(ops, p, T, t);
      }
    }
  }

  lemma {:induction false} OwnerHeld(st: Slots, owner: seq<nat>, T: nat, n: nat, t: nat)
    requires Holds(st, owner, T) && n <= T && forall i :: 0 <= i < n ==> st.taken[i]
    requires t in Owners(owner, n)
    ensures Held(st, owner, t)
  {
    if t !in Owners(owner, n - 1) {
      assert st.taken[n - 1];
    } else {
      OwnerHeld(st, owner, T, n - 1, t);
    }
  }

  lemma OwnerOverlaps(ops: seq<Op>, p: nat, T: nat, k: nat, t: nat)
    requires p < |ops| && forall k {:trigger ops[k]} :: 0 <= k < |ops| ==> TempsBelow(ops[k], T)
    requires WellUsed(ops) && k <= T && forall i :: 0 <= i < k ==> Mid(ops, p, T).taken[i]
    requires |OwnerMid(ops, p, T)| == T && t in Owners(OwnerMid(ops, p, T), k)
    ensures t in Overlap(ops, p, T)
  {
    AllTight(ops, p + 1, T, t);
    AfterKeeps(ops, p + 1, T);
    MidKeeps(ops, p, T);
    OwnerHeld(Mid(ops, p, T), OwnerMid(ops, p, T), T, k, t);
    HeldMid(ops, p, T, t);
    ValidMid(ops, p, T, t);
    MentionedStep(ops, t, p);
  }

  /** At some op, as many temporaries overlap as the scan hands out slots. */
  lemma OverlapReached(c: Code) returns (p: nat)
    requires WellNumbered(c) && WellUsed(c.ops) && Packed(c).temps > 0
    ensures p < |c.ops| && |Overlap(c.ops, p, c.temps)| >= Packed(c).temps
  {
    var ops, T := c.ops, c.temps;
    p := FullSomewhere(ops, T);
    FullOverlap(ops, p, T, After(ops, 0, T).max);
  }

  lemma FullOverlap(ops: seq<Op>, p: nat, T: nat, n: nat)
    requires p < |ops| && forall k {:trigger ops[k]} :: 0 <= k < |ops| ==> TempsBelow(ops[k], T)
    requires WellUsed(ops) && Full(ops, p, T, n)
    ensures |Overlap(ops, p, T)| >= n + 1
  {
    var st, owner, r := Mid(ops, p, T), OwnerMid(ops, p, T), ResultOf(ops[p]);
    var k := if forall i :: 0 <= i <= n ==> st.taken[i] then n + 1 else n;
    TakenOverlap(ops, p, T, k);
    if k == n {
      assert TempsBelow(ops[p], T) && Defines(ops[p], r.n);
      SubsetSize(Owners(owner, k) + {r.n}, Overlap(ops, p, T));
    } else {
      SubsetSize(Owners(owner, k), Overlap(ops, p, T));
    }
  }

  lemma TakenOverlap(ops: seq<Op>, p: nat, T: nat, k: nat)
    requires p < |ops| && forall k {:trigger ops[k]} :: 0 <= k < |ops| ==> TempsBelow(ops[k], T)
    requires WellUsed(ops) && k <= T && forall i :: 0 <= i < k ==> Mid(ops, p, T).taken[i]
    ensures |OwnerMid(ops, p, T)| == T
    ensures var used := Owners(OwnerMid(ops, p, T), k);
      |used| == k && used <= Overlap(ops, p, T) && forall t :: t in used ==> t < T && Mid(ops, p, T).valid[t]
  {
    AfterKeeps(ops, p + 1, T);
    MidKeeps(ops, p, T);
    OwnersCount(Mid(ops, p, T), OwnerMid(ops, p, T), T, k);
    forall t | t in Owners(OwnerMid(ops, p, T), k) ensures t in Overlap(ops, p, T) {
      OwnerOverlaps(ops, p, T, k, t);
    }
  }

  lemma {:induction false} InjectiveFits(s: set<nat>, f: seq<nat>, n: nat)
    requires forall t :: t in s ==> t < |f| && f[t] < n
    requires forall t, u {:trigger f[t], f[u]} :: t in s && u in s && t != u ==> f[t] != f[u]
    ensures |s| <= n
  {
    if s != {} {
      var x :| x in s;
      assert f[x] < n;
      if exists t :: t in s && f[t] == n - 1 {
        var t :| t in s && f[t] == n - 1;
        InjectiveFits(s - {t}, f, n - 1);
      } else {
        InjectiveFits(s, f, n - 1);
      }
    }
  }

  lemma OverlapSlot(ops: seq<Op>, p: nat, T: nat, t: nat)
    requires p < |ops| && forall k {:trigger ops[k]} :: 0 <= k < |ops| ==> TempsBelow(ops[k], T)
    requires WellUsed(ops) && t in Overlap(ops, p, T)
    ensures Defines(ops[p], t) || Held(Mid(ops, p, T), OwnerMid(ops, p, T), t)
    ensures t < T && (Defines(ops[p], t) || Mid(ops, p, T).slot[t] <= After(ops, 0, T).max)
  {
    AllTight(ops, p + 1, T, t);
    AfterKeeps(ops, p + 1, T);
    MidKeeps(ops, p, T);
    MidFinal(ops, p, T);
    ValidMid(ops, p, T, t);
    MentionedStep(ops, t, p);
    if !Defines(ops[p], t) {
      assert Mid(ops, p, T).valid[t];
    }
  }

  /** And no op has more: the new count is the largest number of temporaries that overlap at one op. */
  lemma OverlapFits(c: Code, p: nat)
    requires WellNumbered(c) && WellUsed(c.ops) && p < |c.ops|
    ensures |Overlap(c.ops, p, c.temps)| <= Packed(c).temps
  {
    var ops, T := c.ops, c.temps;
    assert TempsBelow(ops[p], T);
    MidExtends(ops, p, T);
    ResultBelow(ops, p, T);
    AfterKeeps(ops, 0, T);
    var st, owner, r := Mid(ops, p, T), OwnerMid(ops, p, T), ResultOf(ops[p]);
    var all := Overlap(ops, p, T);
    var f := if HasTemp(r) then st.slot[r.n := ResultSlot(ops, p, T)] else st.slot;
    forall t | t in all ensures f[t] < Packed(c).temps && (Defines(ops[p], t) || Held(st, owner, t)) {
      OverlapSlot(ops, p, T, t);
    }
    forall t, u | t in all && u in all && t != u ensures f[t] != f[u] {
      assert Defines(ops[p], t) || Held(st, owner, t);
      assert Defines(ops[p], u) || Held(st, owner, u);
    }
    InjectiveFits(all, f, Packed(c).temps);
  }

  // ---- the pass itself, in place

  /** The scratch arrays of the scan. */
  class Allocation {
    const taken: array<bool>
    const valid: array<bool>
    const slot: array<nat>
    const T: nat
    var max: int

    ghost predicate Valid() {
      taken.Length == T && valid.Length == T && slot.Length == T && taken != valid
    }

    ghost function View(): (r: Slots)
      reads this, taken, valid, slot
      requires Valid()
      ensures Sized(r, T)
    {
      Slots(taken[..], valid[..], slot[..], max)
    }

    constructor (T: nat)
      ensures Valid() && this.T == T && fresh(taken) && fresh(valid) && fresh(slot)
      ensures View() == Slots(seq(T, _ => false), seq(T, _ => false), seq(T, _ => 0), -1)
    {
      this.T := T;
      taken := new bool[T](_ => false);
      valid := new bool[T](_ => false);
      slot := new nat[T](_ => 0);
      max := -1;
    }

    /** GET_AVAILABLE_T: the lowest slot that is not taken. */
    method GetAvailable() returns (i: nat)
      requires Valid() && Lowest(taken[..], 0) < T
      modifies `max, taken
      ensures (View(), i) == Take(old(View()))
    {
      i := 0;
      ghost var was := taken[..];
      while i < T && taken[i]
        invariant i <= T && Lowest(was, 0) == Lowest(was, i)
      {
        i := i + 1;
      }
      taken[i] := true;
      if i > max {
        max := i;
      }
      assert taken[..] == was[i := true];
    }

    /** Read an operand: its temporary gets a slot if it has none. */
    method UseOperand(o: Operand, ghost owner: seq<nat>) returns (o': Operand)
      requires Valid() && Holds(View(), owner, T) && (IsTemp(o) ==> o.n < T)
      modifies `max, taken, valid, slot
      ensures View() == Use(old(View()), o, T)
      ensures o' == Mapped(View().slot, o)
    {
      if IsTemp(o) {
        if !valid[o.n] {
          FreeSlot(View(), owner, T, o.n);
          ghost var st := View();
          var i := GetAvailable();
          slot[o.n] := i;
          valid[o.n] := true;
          assert View() == Assign(Take(st).0, o.n, i);
        }
        o' := WithTemp(o, slot[o.n]);
      } else {
        o' := o;
      }
    }

    /** Write the result: to the temporary's slot, which is given up at its first definition, or to a
        slot of its own. */
    method SettleResult(r: Result, first: bool, ghost owner: seq<nat>) returns (r': Result)
      requires Valid() && Holds(View(), owner, T) && (HasTemp(r) ==> r.n < T)
      requires HasTemp(r) && valid[r.n] ==> slot[r.n] < T
      modifies `max, taken, valid, slot
      ensures View() == Settle(old(View()), r, first, T).0
      ensures r' == ResultWith(r, Settle(old(View()), r, first, T).1)
    {
      ghost var st := View();
      if !HasTemp(r) {
        r' := r;
      } else if valid[r.n] {
        if first {
          taken[slot[r.n]] := false;
          assert View() == st.(taken := st.taken[st.slot[r.n] := false]);
        }
        r' := ResultWith(r, slot[r.n]);
      } else {
        FreeSlot(st, owner, T, r.n);
        var i := GetAvailable();
        ghost var u := View();
        if Flagged(r) {
          taken[i] := false;
          assert View() == u.(taken := u.taken[i := false]);
        } else {
          slot[r.n] := i;
          valid[r.n] := true;
          assert View() == Assign(u, r.n, i);
        }
        r' := ResultWith(r, i);
      }
    }
  }

  /** The op that first defines each temporary: the last one found going backwards. */
  method FindStarts(ops: array<Op>, last: nat, T: nat, ghost was: seq<Op>) returns (start: array<nat>)
    requires last <= ops.Length && was == ops[..last]
    requires forall k {:trigger was[k]} :: 0 <= k < |was| ==> TempsBelow(was[k], T)
    ensures fresh(start) && start.Length == T
    ensures forall t {:trigger start[t]} :: 0 <= t < T ==> start[t] == First(was, t)
  {
    start := new nat[T](_ => last);
    var p: nat := last;
    while p > 0
      invariant p <= last
      invariant forall t: nat {:trigger start[t]} :: t < T ==>
        start[t] <= last && (start[t] < last ==> p <= start[t] && Defines(was[start[t]], t))
      invariant forall q, t: nat {:trigger Defines(was[q], t)} :: p <= q < last && Defines(was[q], t) && t < T ==>
        start[t] <= q
    {
      p := p - 1;
      var r := ResultOf(ops[p]);
      assert ops[p] == was[p] && TempsBelow(was[p], T);
      if HasTemp(r) {
        start[r.n] := p;
      }
    }
    forall t: nat {:trigger start[t]} | t < T ensures start[t] == First(was, t) {
      var f := First(was, t);
      assert f < last ==> Defines(was[f], t);
      assert start[t] < last ==> Defines(was[start[t]], t);
    }
  }

  lemma UseThree(st: Slots, owner: seq<nat>, op: Op, T: nat)
    requires Holds(st, owner, T) && TempsBelow(op, T)
    ensures var a := Use(st, Op1(op), T);
      var b := Use(a, Op2(op), T);
      var wa := OwnerUse(st, owner, Op1(op));
      var wb := OwnerUse(a, wa, Op2(op));
      && Holds(a, wa, T) && Holds(b, wb, T) && Holds(UseAll(st, op, T), OwnerUse(b, wb, Ext(op)), T)
      && Mapped(a.slot, Op1(op)) == Mapped(UseAll(st, op, T).slot, Op1(op))
      && Mapped(b.slot, Op2(op)) == Mapped(UseAll(st, op, T).slot, Op2(op))
  {
    var a := Use(st, Op1(op), T);
    var b := Use(a, Op2(op), T);
    var wa := OwnerUse(st, owner, Op1(op));
    var wb := OwnerUse(a, wa, Op2(op));
    UseHolds(st, owner, Op1(op), T);
    UseHolds(a, wa, Op2(op), T);
    UseHolds(b, wb, Ext(op), T);
    ExtendsTrans(a, b, UseAll(st, op, T), T);
    assert IsTemp(Op1(op)) ==> a.valid[Op1(op).n];
    assert IsTemp(Op2(op)) ==> b.valid[Op2(op).n];
  }

  method UseOperands(al: Allocation, op: Op, ghost owner: seq<nat>) returns (a: Operand, b: Operand, e: Operand,
          ghost owner': seq<nat>)
    requires al.Valid() && Holds(al.View(), owner, al.T) && TempsBelow(op, al.T)
    modifies al`max, al.taken, al.valid, al.slot
    ensures al.Valid() && al.View() == UseAll(old(al.View()), op, al.T) && Holds(al.View(), owner', al.T)
    ensures var m := al.View().slot; a == Mapped(m, Op1(op)) && b == Mapped(m, Op2(op)) && e == Mapped(m, Ext(op))
  {
    ghost var st0 := al.View();
    UseThree(st0, owner, op, al.T);
    ghost var wa := OwnerUse(st0, owner, Op1(op));
    a := al.UseOperand(Op1(op), owner);
    ghost var wb := OwnerUse(al.View(), wa, Op2(op));
    b := al.UseOperand(Op2(op), wa);
    owner' := OwnerUse(al.View(), wb, Ext(op));
    e := al.UseOperand(Ext(op), wb);
  }

  method RenameOp(al: Allocation, op: Op, first: bool, ghost owner: seq<nat>) returns (op': Op)
    requires al.Valid() && Holds(al.View(), owner, al.T) && TempsBelow(op, al.T)
    requires var r, u := ResultOf(op), UseAll(al.View(), op, al.T);
      HasTemp(r) && u.valid[r.n] ==> u.slot[r.n] < al.T
    modifies al`max, al.taken, al.valid, al.slot
    ensures var mid := UseAll(old(al.View()), op, al.T);
      var (st, i) := Settle(mid, ResultOf(op), first, al.T);
      al.View() == st && op' == Recolour(op, mid.slot, i)
  {
    ghost var we;
    var a, b, e;
    a, b, e, we := UseOperands(al, op, owner);
    var r := al.SettleResult(ResultOf(op), first, we);
    op' := Rebuild(op, a, b, e, r);
  }

  lemma ReadyToRename(ops: seq<Op>, p: nat, T: nat)
    requires p < |ops| && forall k {:trigger ops[k]} :: 0 <= k < |ops| ==> TempsBelow(ops[k], T)
    ensures TempsBelow(ops[p], T) && Holds(After(ops, p + 1, T), OwnerAfter(ops, p + 1, T), T)
    ensures var r, u := ResultOf(ops[p]), Mid(ops, p, T); HasTemp(r) && u.valid[r.n] ==> u.slot[r.n] < T
  {
    AfterKeeps(ops, p + 1, T);
    MidKeeps(ops, p, T);
  }

  method RenameAt(al: Allocation, op: Op, first: bool, ghost ops: seq<Op>, ghost p: nat) returns (op': Op)
    requires p < |ops| && op == ops[p] && al.Valid() && first == IsFirst(ops, p)
    requires forall k {:trigger ops[k]} :: 0 <= k < |ops| ==> TempsBelow(ops[k], al.T)
    requires al.View() == After(ops, p + 1, al.T)
    modifies al`max, al.taken, al.valid, al.slot
    ensures al.View() == After(ops, p, al.T) && op' == Renamed(ops, p, al.T)
  {
    ReadyToRename(ops, p, al.T);
    op' := RenameOp(al, op, first, OwnerAfter(ops, p + 1, al.T));
  }

  /** The ops from p on are renamed, the others as they were. */
  ghost predicate RenamedFrom(opcodes: seq<Op>, ops: seq<Op>, goal: seq<Op>, p: nat) {
    && |opcodes| == |ops| == |goal|
    && (forall k {:trigger opcodes[k]} :: 0 <= k < |ops| ==> opcodes[k] == if k < p then ops[k] else goal[k])
  }

  method RenameAll(opcodes: array<Op>, last: nat, start: array<nat>, al: Allocation, ghost ops: seq<Op>,
          ghost goal: seq<Op>)
    requires last <= opcodes.Length && ops == opcodes[..last] && |goal| == last
    requires al.Valid() && start.Length == al.T && start != al.slot
    requires forall k {:trigger ops[k]} :: 0 <= k < |ops| ==> TempsBelow(ops[k], al.T)
    requires forall k: nat {:trigger Renamed(ops, k, al.T)} :: k < last ==> goal[k] == Renamed(ops, k, al.T)
    requires forall t {:trigger start[t]} :: 0 <= t < al.T ==> start[t] == First(ops, t)
    requires al.View() == After(ops, last, al.T)
    modifies opcodes, al`max, al.taken, al.valid, al.slot
    ensures opcodes[..last] == goal && al.View() == After(ops, 0, al.T)
  {
    var p: nat := last;
    while p > 0
      invariant p <= last && RenamedFrom(opcodes[..last], ops, goal, p)
      invariant al.View() == After(ops, p, al.T)
    {
      p := p - 1;
      var op := opcodes[p];
      assert opcodes[..last][p] == ops[p] && TempsBelow(ops[p], al.T);
      var first := HasTemp(ResultOf(op)) && start[ResultOf(op).n] == p;
      ghost var was := opcodes[..last];
      var op' := RenameAt(al, op, first, ops, p);
      opcodes[p] := op';
      assert opcodes[..last] == was[p := op'];
    }
  }

  method OptimizeTemporaryVariables(a: OpArray)
    requires a.Valid() && WellNumbered(a.View())
    modifies a`temps, a.opcodes
    ensures a.Valid() && a.View() == Packed(old(a.View()))
  {
    ghost var c := a.View();
    ghost var ops := c.ops;
    var T := a.temps;
    var start := FindStarts(a.opcodes, a.last, T, ops);
    var al := new Allocation(T);
    RenameAll(a.opcodes, a.last, start, al, ops, Packed(c).ops);
    AfterKeeps(ops, 0, T);
    a.temps := al.max + 1;
  }
}
