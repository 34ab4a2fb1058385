/** Restarting the cache: who may use shared memory when, how often a scheduled restart runs, and what the
    count of wasted memory means. Each process does one step at a time, in any order. */
module Restart {
  import opened Alignment
  import opened SharedAlloc

  datatype Reason = Oom | Hash | User

  /** Compiling: counted, with the usage lock until the end of the request. Waiting, Holding, Reading: the read lock of
      other callers, who have found the accelerator on, have taken the usage lock, have looked at restart_in_progress.
      Resetting, Cleaned, Leaving: inside a restart. */
  datatype Phase = Idle | Compiling | Waiting | Holding | Reading | Resetting | Cleaned | Leaving

  /** seen: the cached scripts the process has pointers to. */
  datatype Proc = Proc(phase: Phase, seen: set<nat>)

  datatype Script = Script(block: nat, consumption: nat, corrupted: bool)

  /** owner: the process that holds the restart lock and with it the allocation lock, or -1. */
  datatype State = State(enabled: bool, pending: bool, inProgress: bool, statusBefore: bool, reason: Reason,
                         oom: nat, hash: nat, manual: nat, wasted: nat, scripts: seq<Script>, arena: Arena,
                         procs: seq<Proc>, owner: int, scheduled: nat)

  /** What was saved at startup, and two settings. */
  datatype Config = Config(base: Arena, memoryConsumption: nat, maxWasted: real)

  predicate HoldsUsage(p: Proc) { p.phase == Compiling || p.phase == Holding || p.phase == Reading }
  predicate Uses(p: Proc) { p.phase == Compiling || p.phase == Reading }
  predicate Resets(p: Proc) { p.phase == Resetting || p.phase == Cleaned || p.phase == Leaving }

  // ---- the steps

  function Put(s: State, p: nat, phase: Phase, seen: set<nat>): (r: State)
    requires p < |s.procs|
    ensures r.arena == s.arena
  {
    s.(procs := s.procs[p := Proc(phase, seen)])
  }

  /** zend_accel_schedule_restart */
  function Schedule(s: State, reason: Reason): State {
    if s.pending then s
    else s.(pending := true, reason := reason, statusBefore := s.enabled, enabled := false,
      scheduled := s.scheduled + 1)
  }

  /** The share of wasted memory has reached the limit. Without a memory size the quotient is infinite or, for nothing
      wasted, no number, which is not at least the limit. */
  predicate Necessary(c: Config, wasted: nat) {
    if c.memoryConsumption == 0 then wasted > 0
    else wasted as real / c.memoryConsumption as real >= c.maxWasted
  }

  function ScheduleIfNecessary(c: Config, s: State, reason: Reason): State {
    if Necessary(c, s.wasted) then Schedule(s, reason) else s
  }

  function Exhaust(s: State): State { s.(arena := s.arena.(mem := s.arena.mem.(exhausted := true))) }

  function Allocate(c: Config, s: State, size: nat): (r: State)
    requires |c.base.mem.segs| == |s.arena.mem.segs|
    ensures |r.arena.mem.segs| == |s.arena.mem.segs|
  {
    s.(arena := Called(s.arena, Save(c.base.mem), c.base.blocks, Allocates(size)))
  }

  predicate Granted(s: State, size: nat) { Alloc(s.arena.mem, size).1 >= 0 }

  /** The critical section of all three ways to invalidate a script. */
  function Charge(c: Config, s: State, i: nat, full: bool): (r: State)
    requires i < |s.scripts|
    ensures r.arena == s.arena
  {
    if s.scripts[i].corrupted then s
    else
      var t := s.(scripts := s.scripts[i := s.scripts[i].(corrupted := true)],
        wasted := s.wasted + s.scripts[i].consumption);
      if t.arena.mem.exhausted then ScheduleIfNecessary(c, t, if full then Hash else Oom) else t
  }

  /** The critical section of cache_script_in_shared_memory for a script that is not cached yet. full: the hash is;
      keyFails: there is no room for a second key. */
  function Store(c: Config, s: State, p: nat, size: nat, full: bool, keyFails: bool): (r: State)
    requires p < |s.procs| && |c.base.mem.segs| == |s.arena.mem.segs|
    ensures |r.arena.mem.segs| == |s.arena.mem.segs|
  {
    if full then ScheduleIfNecessary(c, Exhaust(s), Hash)
    else if !Granted(s, size) then ScheduleIfNecessary(c, Allocate(c, s, size), Oom)
    else
      var a := Allocate(c, s, size);
      var t := Put(a, p, s.procs[p].phase, s.procs[p].seen + {|s.scripts|})
                 .(scripts := s.scripts + [Script(|s.arena.blocks|, Aligned(size), false)]);
      if keyFails then ScheduleIfNecessary(c, Exhaust(t), Hash) else t
  }

  /** zend_accel_add_key for a key that is new; the key takes size bytes. */
  function StoreKey(c: Config, s: State, size: nat, full: bool): (r: State)
    requires |c.base.mem.segs| == |s.arena.mem.segs|
    ensures |r.arena.mem.segs| == |s.arena.mem.segs|
  {
    if full then ScheduleIfNecessary(c, Exhaust(s), Hash)
    else if !Granted(s, size) then ScheduleIfNecessary(c, Allocate(c, s, size), Oom)
    else Allocate(c, s, size)
  }

  predicate Inactive(s: State, p: nat) {
    forall q {:trigger s.procs[q]} :: 0 <= q < |s.procs| && q != p ==> !HoldsUsage(s.procs[q])
  }

  /** A process raises restart_in_progress and begins to reset. */
  function Enter(s: State, p: nat): (r: State)
    requires p < |s.procs|
    ensures r.arena == s.arena
  {
    var t := Put(s, p, Resetting, {}).(pending := false, inProgress := true, owner := p);
    match s.reason
    case Oom => t.(oom := s.oom + 1)
    case Hash => t.(hash := s.hash + 1)
    case User => t.(manual := s.manual + 1)
  }

  /** zend_reset_cache_vars, the cleaning of the hash, the restoring of the memory */
  function Empty(c: Config, s: State): (r: State)
    requires |c.base.mem.segs| == |s.arena.mem.segs|
    ensures |r.arena.mem.segs| == |s.arena.mem.segs|
  {
    s.(pending := false, wasted := 0, scripts := [],
      arena := Called(s.arena, Save(c.base.mem), c.base.blocks, Restores))
  }

  datatype Step =
    | Compile(p: nat) | Finish(p: nat) | Die(p: nat)
    | Check(p: nat) | TakeUsage(p: nat) | LookAtFlag(p: nat) | Unlock(p: nat)
    | Find(p: nat, i: nat) | Invalidate(p: nat, i: nat, full: bool)
    | Cache(p: nat, size: nat, full: bool, keyFails: bool) | AddKey(p: nat, size: nat, full: bool)
    | Reset(p: nat) | Activate(p: nat) | Clean(p: nat) | RestoreStatus(p: nat) | Leave(p: nat)

  /** A step that is not that of a process in this phase, or has to wait, changes nothing. */
  function Do(c: Config, s: State, step: Step): (r: State)
    requires |c.base.mem.segs| == |s.arena.mem.segs|
    ensures |r.arena.mem.segs| == |s.arena.mem.segs|
  {
    if step.p >= |s.procs| then s
    else
      var p, phase, seen := step.p, s.procs[step.p].phase, s.procs[step.p].seen;
      match step
      case Compile(_) => if phase == Idle && s.enabled && !s.inProgress then Put(s, p, Compiling, {}) else s
      case Finish(_) => if phase == Compiling then Put(s, p, Idle, {}) else s
      case Die(_) => if Resets(s.procs[p]) then s else Put(s, p, Idle, {})
      case Check(_) => if phase == Idle && s.enabled then Put(s, p, Waiting, {}) else s
      case TakeUsage(_) => if phase == Waiting then Put(s, p, Holding, {}) else s
      case LookAtFlag(_) => if phase == Holding then Put(s, p, if s.inProgress then Idle else Reading, {}) else s
      case Unlock(_) => if phase == Reading then Put(s, p, Idle, {}) else s
      case Find(_, i) => if Uses(s.procs[p]) && i < |s.scripts| then Put(s, p, phase, seen + {i}) else s
      case Invalidate(_, i, full) =>
        if Uses(s.procs[p]) && s.owner == -1 && i in seen && i < |s.scripts| then Charge(c, s, i, full) else s
      case Cache(_, size, full, keyFails) => if phase == Compiling
        && s.owner == -1 then Store(c, s, p, size, full, keyFails) else s
      case AddKey(_, size, full) => if phase == Compiling && s.owner == -1 then StoreKey(c, s, size, full) else s
      case Reset(_) => if s.enabled then Schedule(s, User) else s
      case Activate(_) =>
        if phase != Idle && phase != Compiling then s
        else
          var t := Put(s, p, Idle, {});
          if s.pending && s.owner == -1 && Inactive(s, p) then Enter(t, p) else t
      case Clean(_) => if phase == Resetting then Empty(c, Put(s, p, Cleaned, {})) else s
      case RestoreStatus(_) => if phase == Cleaned then Put(s, p, Leaving, {}).(enabled := s.statusBefore) else s
      case Leave(_) => if phase == Leaving then Put(s, p, Idle, {}).(inProgress := false, owner := -1) else s
  }

  function Run(c: Config, s: State, steps: seq<Step>): (r: State)
    requires |c.base.mem.segs| == |s.arena.mem.segs|
    ensures |r.arena.mem.segs| == |s.arena.mem.segs|
  {
    if steps == [] then s else Do(c, Run(c, s, steps[..|steps| - 1]), steps[|steps| - 1])
  }

  // ---- what holds in every state

  function Wasted(scripts: seq<Script>): nat {
    if scripts == [] then 0
    else Wasted(scripts[..|scripts| - 1]) + if scripts[|scripts| - 1].corrupted then scripts[|scripts| - 1].consumption
      else 0
  }

  function Total(scripts: seq<Script>): nat {
    if scripts == [] then 0 else Total(scripts[..|scripts| - 1]) + scripts[|scripts| - 1].consumption
  }

  /** The memory at startup is in order; sizes fit the machine's integers. */
  ghost predicate Sane(c: Config) {
    && Sound(c.base.mem, c.base.blocks) && Fits(c.base.mem)
    && forall i {:trigger c.base.mem.segs[i]} :: 0 <= i < |c.base.mem.segs| ==>
          c.base.mem.segs[i].size < TWO_64 - TWO_31
  }

  /** The locks: whoever resets is alone, and restart_in_progress says so. */
  ghost predicate Exclusive(s: State) {
    && -1 <= s.owner < |s.procs|
    && (s.inProgress <==> s.owner >= 0)
    && (forall p {:trigger s.procs[p]} :: 0 <= p < |s.procs| ==> (Resets(s.procs[p]) <==> p == s.owner))
    && (s.owner >= 0 ==> forall p {:trigger s.procs[p]} :: 0 <= p < |s.procs| ==> !Uses(s.procs[p]))
  }

  /** The restart that is under way has not yet switched the accelerator on again. */
  predicate Emptying(s: State) { 0 <= s.owner < |s.procs| && s.procs[s.owner].phase != Leaving }

  /** The switch: the accelerator is off while a restart is due or not yet done. */
  ghost predicate Switched(s: State) {
    && (!s.enabled <==> s.pending || Emptying(s))
    && !(s.pending && Emptying(s))
    && (!s.enabled ==> s.statusBefore)
    && s.scheduled == s.oom + s.hash + s.manual + if s.pending then 1 else 0
  }

  /** The memory: every script has its own live block; the blocks from startup stay. */
  ghost predicate Housed(c: Config, s: State) {
    && Sound(s.arena.mem, s.arena.blocks) && Grown(c.base.mem, s.arena.mem) && c.base.blocks <= s.arena.blocks
    && (forall i {:trigger s.scripts[i]} :: 0 <= i < |s.scripts| ==>
          s.scripts[i].block < |s.arena.blocks|
            && s.scripts[i].consumption == Aligned(s.arena.blocks[s.scripts[i].block].size))
    && (forall i, j {:trigger s.scripts[i], s.scripts[j]} :: 0 <= i < j < |s.scripts| ==>
          s.scripts[i].block < s.scripts[j].block)
  }

  /** The account: wasted is the memory of the corrupted scripts, which cost no more than has been allocated. */
  ghost predicate Accounted(c: Config, s: State) {
    s.wasted == Wasted(s.scripts) && Total(s.scripts) + s.arena.mem.free <= c.base.mem.free
  }

  /** A process that does not use the cache has no pointers into it, one that does only to scripts that are there. */
  ghost predicate NoneDangles(s: State) {
    forall p {:trigger s.procs[p]} :: 0 <= p < |s.procs| ==>
      && (!Uses(s.procs[p]) ==> s.procs[p].seen == {})
      && forall i {:trigger i in s.procs[p].seen} :: i in s.procs[p].seen ==> i < |s.scripts|
  }

  ghost predicate Inv(c: Config, s: State) {
    && |c.base.mem.segs| == |s.arena.mem.segs|
    && Exclusive(s) && Switched(s) && Housed(c, s) && Accounted(c, s) && NoneDangles(s)
  }

  /** Sizes that do not wrap around when they are aligned. */
  predicate Modest(step: Step) {
    match step
    case Cache(_, size, _, _) => Aligned(size) < TWO_32
    case AddKey(_, size, _) => Aligned(size) < TWO_32
    case _ => true
  }

  function Startup(c: Config, n: nat): State {
    State(true, false, false, false, Oom, 0, 0, 0, 0, [], c.base, seq(n, i => Proc(Idle, {})), -1, 0)
  }

  lemma StartupInv(c: Config, n: nat)
    requires Sane(c)
    ensures Inv(c, Startup(c, n))
  {
  }

  // ---- memory

  lemma {:induction false} WastedCharge(scripts: seq<Script>, i: nat)
    requires i < |scripts| && !scripts[i].corrupted
    ensures var r := scripts[i := scripts[i].(corrupted := true)];
      Wasted(r) == Wasted(scripts) + scripts[i].consumption && Total(r) == Total(scripts)
  {
    var n, r := |scripts| - 1, scripts[i := scripts[i].(corrupted := true)];
    if i < n {
      WastedCharge(scripts[..n], i);
      assert r[..n] == scripts[..n][i := scripts[i].(corrupted := true)];
    } else {
      assert r[..n] == scripts[..n];
    }
  }

  lemma {:induction false} WastedMost(scripts: seq<Script>)
    ensures Wasted(scripts) <= Total(scripts)
  {
    if scripts != [] {
      WastedMost(scripts[..|scripts| - 1]);
    }
  }

  lemma {:induction false} FreeNotNegative(segs: seq<Segment>)
    requires forall i {:trigger segs[i]} :: 0 <= i < |segs| ==> segs[i].pos <= segs[i].size
    ensures FreeIn(segs) >= 0
  {
    if segs != [] {
      var rest := segs[..|segs| - 1];
      forall i | 0 <= i < |rest| ensures rest[i].pos <= rest[i].size {
        assert rest[i] == segs[i];
      }
      FreeNotNegative(rest);
    }
  }

  lemma AllocateArena(c: Config, s: State, size: nat)
    requires |c.base.mem.segs| == |s.arena.mem.segs| && Housed(c, s) && Aligned(size) < TWO_32
    ensures var a := Allocate(c, s, size).arena;
      && Sound(a.mem, a.blocks) && Grown(c.base.mem, a.mem) && s.arena.blocks <= a.blocks
      && a.mem.free == s.arena.mem.free - (if Granted(s, size) then Aligned(size) else 0)
      && (Granted(s, size) ==> |a.blocks| == |s.arena.blocks| + 1 && a.blocks[|s.arena.blocks|].size == size)
  {
    AllocSound(s.arena.mem, s.arena.blocks, size);
  }

  lemma AllocateKeeps(c: Config, s: State, size: nat)
    requires |c.base.mem.segs| == |s.arena.mem.segs| && Housed(c, s) && Aligned(size) < TWO_32
    ensures var r := Allocate(c, s, size);
      && Housed(c, r) && r == s.(arena := r.arena)
      && r.arena.mem.free == s.arena.mem.free - (if Granted(s, size) then Aligned(size) else 0)
      && (Granted(s, size) ==>
            |r.arena.blocks| == |s.arena.blocks| + 1 && r.arena.blocks[|s.arena.blocks|].size == size)
  {
    AllocateArena(c, s, size);
  }

  lemma ExhaustKeeps(c: Config, s: State)
    requires Housed(c, s)
    ensures Housed(c, Exhaust(s))
  {
    var r := Exhaust(s);
    assert r.arena.mem.segs == s.arena.mem.segs && r.arena.blocks == s.arena.blocks;
    assert forall k {:trigger InSegment(s.arena.mem, r.arena.blocks[k])} :: 0 <= k < |r.arena.blocks| ==>
      InSegment(s.arena.mem, r.arena.blocks[k]) ==> InSegment(r.arena.mem, r.arena.blocks[k]);
  }

  // ---- single steps

  lemma PutKeeps(c: Config, s: State, p: nat, phase: Phase, seen: set<nat>)
    requires Inv(c, s) && p < |s.procs| && !Resets(s.procs[p]) && !Resets(Proc(phase, seen))
    requires if Uses(Proc(phase, seen)) then s.owner == -1 else seen == {}
    requires forall i {:trigger i in seen} :: i in seen ==> i < |s.scripts|
    ensures Inv(c, Put(s, p, phase, seen))
  {
    var r := Put(s, p, phase, seen);
    assert Emptying(r) == Emptying(s);
  }

  /** Scheduling keeps everything in order exactly when it is not done while a restart is switching the accelerator
      back on. (Whoever looks whether the accelerator is on, and schedules in the same instant, is safe.) */
  lemma ScheduleKeeps(c: Config, s: State, reason: Reason)
    requires Inv(c, s)
    ensures Inv(c, Schedule(s, reason)) <==> s.pending || !Emptying(s)
    ensures s.enabled ==> Inv(c, Schedule(s, reason))
  {
    var r := Schedule(s, reason);
    assert Emptying(r) == Emptying(s);
  }

  /** Taking the usage lock on finding the accelerator on keeps everything in order exactly when there is no restart
      at that instant, whatever was found before. */
  lemma CompileKeeps(c: Config, s: State, p: nat)
    requires Inv(c, s) && p < |s.procs| && s.procs[p].phase == Idle
    ensures Inv(c, Put(s, p, Compiling, {})) <==> !s.inProgress
  {
    var r := Put(s, p, Compiling, {});
    if s.inProgress {
      assert Uses(r.procs[p]);
    } else {
      PutKeeps(c, s, p, Compiling, {});
    }
  }

  lemma IfNecessaryKeeps(c: Config, s: State, reason: Reason)
    requires Inv(c, s) && s.owner == -1
    ensures Inv(c, ScheduleIfNecessary(c, s, reason))
  {
    ScheduleKeeps(c, s, reason);
  }

  lemma Charged(c: Config, s: State, i: nat)
    requires Inv(c, s) && i < |s.scripts| && !s.scripts[i].corrupted
    ensures Inv(c, s.(scripts := s.scripts[i := s.scripts[i].(corrupted := true)],
      wasted := s.wasted + s.scripts[i].consumption))
  {
    WastedCharge(s.scripts, i);
    var r := s.(scripts := s.scripts[i := s.scripts[i].(corrupted := true)],
      wasted := s.wasted + s.scripts[i].consumption);
    assert forall j {:trigger r.scripts[j]} :: 0 <= j < |r.scripts| ==>
      r.scripts[j].block == s.scripts[j].block && r.scripts[j].consumption == s.scripts[j].consumption;
  }

  lemma ChargeKeeps(c: Config, s: State, i: nat, full: bool)
    requires Inv(c, s) && i < |s.scripts| && s.owner == -1
    ensures Inv(c, Charge(c, s, i, full))
  {
    if !s.scripts[i].corrupted {
      Charged(c, s, i);
      var r := s.(scripts := s.scripts[i := s.scripts[i].(corrupted := true)],
        wasted := s.wasted + s.scripts[i].consumption);
      IfNecessaryKeeps(c, r, if full then Hash else Oom);
    }
  }

  lemma ExhaustInv(c: Config, s: State)
    requires Inv(c, s) && s.owner == -1
    ensures Inv(c, Exhaust(s)) && Inv(c, ScheduleIfNecessary(c, Exhaust(s), Hash))
  {
    ExhaustKeeps(c, s);
    IfNecessaryKeeps(c, Exhaust(s), Hash);
  }

  lemma AllocateInv(c: Config, s: State, size: nat)
    requires Sane(c) && Inv(c, s) && Aligned(size) < TWO_32 && s.owner == -1
    ensures Inv(c, Allocate(c, s, size)) && Inv(c, ScheduleIfNecessary(c, Allocate(c, s, size), Oom))
  {
    AllocateKeeps(c, s, size);
    IfNecessaryKeeps(c, Allocate(c, s, size), Oom);
  }

  lemma NewScript(c: Config, s: State, p: nat, size: nat)
    requires Sane(c) && Inv(c, s) && Aligned(size) < TWO_32 && Granted(s, size)
    requires p < |s.procs| && s.procs[p].phase == Compiling && s.owner == -1
    ensures Inv(c, Put(Allocate(c, s, size), p, s.procs[p].phase, s.procs[p].seen + {|s.scripts|})
                     .(scripts := s.scripts + [Script(|s.arena.blocks|, Aligned(size), false)]))
  {
    var a, script := Allocate(c, s, size), Script(|s.arena.blocks|, Aligned(size), false);
    AllocateKeeps(c, s, size);
    var r := a.(scripts := s.scripts + [script]);
    NewHoused(c, s, a, r, script);
    ScriptAdded(c, s, a, script, r);
    PutKeeps(c, r, p, Compiling, s.procs[p].seen + {|s.scripts|});
  }

  lemma ScriptAdded(c: Config, s: State, a: State, script: Script, r: State)
    requires Inv(c, s) && a == s.(arena := a.arena) && r == a.(scripts := s.scripts + [script]) && Housed(c, r)
    requires |c.base.mem.segs| == |r.arena.mem.segs| && !script.corrupted
    requires a.arena.mem.free == s.arena.mem.free - script.consumption
    ensures Inv(c, r)
  {
    assert r.scripts[..|s.scripts|] == s.scripts;
    assert Emptying(r) == Emptying(s);
  }

  lemma NewHoused(c: Config, s: State, a: State, r: State, script: Script)
    requires Housed(c, s) && Housed(c, a) && r == a.(scripts := s.scripts + [script]) && a.scripts == s.scripts
    requires script.block == |s.arena.blocks| < |a.arena.blocks|
    requires script.consumption == Aligned(a.arena.blocks[script.block].size)
    ensures Housed(c, r)
  {
    forall i | 0 <= i < |r.scripts|
      ensures r.scripts[i].block < |r.arena.blocks|
      ensures r.scripts[i].consumption == Aligned(r.arena.blocks[r.scripts[i].block].size)
    {
      if i < |s.scripts| {
        assert r.scripts[i] == a.scripts[i];
      }
    }
    forall i, j | 0 <= i < j < |r.scripts| ensures r.scripts[i].block < r.scripts[j].block {
      assert r.scripts[i] == s.scripts[i];
      if j < |s.scripts| {
        assert r.scripts[j] == s.scripts[j];
      }
    }
  }

  lemma StoreKeeps(c: Config, s: State, p: nat, size: nat, full: bool, keyFails: bool)
    requires Sane(c) && Inv(c, s) && Aligned(size) < TWO_32
    requires p < |s.procs| && s.procs[p].phase == Compiling && s.owner == -1
    ensures Inv(c, Store(c, s, p, size, full, keyFails))
  {
    if full {
      ExhaustInv(c, s);
    } else if !Granted(s, size) {
      AllocateInv(c, s, size);
    } else {
      NewScript(c, s, p, size);
      ExhaustInv(c, Put(Allocate(c, s, size), p, s.procs[p].phase, s.procs[p].seen + {|s.scripts|})
                      .(scripts := s.scripts + [Script(|s.arena.blocks|, Aligned(size), false)]));
    }
  }

  lemma StoreKeyKeeps(c: Config, s: State, size: nat, full: bool)
    requires Sane(c) && Inv(c, s) && Aligned(size) < TWO_32 && s.owner == -1
    ensures Inv(c, StoreKey(c, s, size, full))
  {
    if full {
      ExhaustInv(c, s);
    } else if !Granted(s, size) {
      AllocateInv(c, s, size);
    } else {
      AllocateInv(c, s, size);
    }
  }

  /** Beginning a restart that is due keeps everything in order exactly when nobody else uses the cache at that
      instant. */
  lemma EnterKeeps(c: Config, s: State, p: nat)
    requires Inv(c, s) && p < |s.procs| && s.procs[p].phase == Idle && s.pending && s.owner == -1
    ensures Inv(c, Enter(s, p)) <==> forall q {:trigger s.procs[q]} :: 0 <= q < |s.procs| && q != p ==>
      !Uses(s.procs[q])
  {
    var r := Enter(s, p);
    assert Emptying(r);
    if q :| 0 <= q < |s.procs| && q != p && Uses(s.procs[q]) {
      assert Uses(r.procs[q]);
    } else {
      assert forall q {:trigger r.procs[q]} :: 0 <= q < |r.procs| && q != p ==> r.procs[q] == s.procs[q];
    }
  }

  lemma EmptyKeeps(c: Config, s: State, p: nat)
    requires Sane(c) && Inv(c, s) && p < |s.procs| && s.procs[p].phase == Resetting
    ensures var r := Empty(c, Put(s, p, Cleaned, {}));
      Inv(c, r) && r.arena == Arena(c.base.mem.(exhausted := false), c.base.blocks) && r.wasted == 0
  {
    var t, r := Put(s, p, Cleaned, {}), Empty(c, Put(s, p, Cleaned, {}));
    assert Resets(s.procs[p]) && s.owner == p;
    RestoreExact(c.base.mem, c.base.blocks, s.arena.mem);
    assert r.arena == Arena(c.base.mem.(exhausted := false), c.base.blocks);
    assert Emptying(r);
    forall q | 0 <= q < |r.procs|
      ensures Resets(r.procs[q]) == (q == r.owner) && !Uses(r.procs[q]) && r.procs[q].seen == {}
    {
      assert Resets(s.procs[q]) == (q == s.owner) && !Uses(s.procs[q]);
    }
  }

  lemma LastPhases(c: Config, s: State, p: nat)
    requires Inv(c, s) && p < |s.procs|
    ensures s.procs[p].phase == Cleaned ==> Inv(c, Put(s, p, Leaving, {}).(enabled := s.statusBefore)) && s.statusBefore
    ensures s.procs[p].phase == Leaving ==> Inv(c, Put(s, p, Idle, {}).(inProgress := false, owner := -1))
  {
    assert Resets(s.procs[p]) == (p == s.owner);
    if s.procs[p].phase == Cleaned {
      var r := Put(s, p, Leaving, {}).(enabled := s.statusBefore);
      assert Emptying(s) && !Emptying(r);
    } else if s.procs[p].phase == Leaving {
      var r := Put(s, p, Idle, {}).(inProgress := false, owner := -1);
      assert !Emptying(s) && !Emptying(r);
    }
  }

  lemma LockKeeps(c: Config, s: State, step: Step)
    requires Inv(c, s) && (step.Compile? || step.Finish? || step.Die? || step.Check? || step.TakeUsage?
      || step.LookAtFlag? || step.Unlock?)
    ensures Inv(c, Do(c, s, step))
  {
    var p := step.p;
    if p < |s.procs| && !Resets(s.procs[p]) {
      if step.Compile? {
        if s.procs[p].phase == Idle { CompileKeeps(c, s, p); }
      } else if step.TakeUsage? {
        PutKeeps(c, s, p, Holding, {});
      } else if step.Check? {
        PutKeeps(c, s, p, Waiting, {});
      } else {
        PutKeeps(c, s, p, if step.LookAtFlag? && !s.inProgress && s.procs[p].phase == Holding then Reading
          else Idle, {});
      }
    }
  }

  lemma ScriptsKeep(c: Config, s: State, step: Step)
    requires Sane(c) && Inv(c, s) && Modest(step) && (step.Find? || step.Invalidate? || step.Cache? || step.AddKey?)
    ensures Inv(c, Do(c, s, step))
  {
    var p := step.p;
    if p < |s.procs| {
      match step
      case Find(_, i) => if Uses(s.procs[p])
        && i < |s.scripts| { PutKeeps(c, s, p, s.procs[p].phase, s.procs[p].seen + {i}); }
      case Invalidate(_, i, full) => if i < |s.scripts| && s.owner == -1 { ChargeKeeps(c, s, i, full); }
      case Cache(_, size, full, keyFails) =>
        if s.procs[p].phase == Compiling && s.owner == -1 { StoreKeeps(c, s, p, size, full, keyFails); }
      case AddKey(_, size, full) => if s.owner == -1 { StoreKeyKeeps(c, s, size, full); }
    }
  }

  lemma DoKeeps(c: Config, s: State, step: Step)
    requires Sane(c) && Inv(c, s) && Modest(step)
    ensures Inv(c, Do(c, s, step))
  {
    var p := step.p;
    if step.Find? || step.Invalidate? || step.Cache? || step.AddKey? {
      ScriptsKeep(c, s, step);
    } else if step.Activate? {
      if p < |s.procs| { ActivateKeeps(c, s, p); }
    } else if step.Reset? {
      ScheduleKeeps(c, s, User);
    } else if step.Clean? {
      if p < |s.procs| && s.procs[p].phase == Resetting { EmptyKeeps(c, s, p); }
    } else if step.RestoreStatus? || step.Leave? {
      if p < |s.procs| { LastPhases(c, s, p); }
    } else {
      LockKeeps(c, s, step);
    }
  }

  lemma ActivateKeeps(c: Config, s: State, p: nat)
    requires Inv(c, s) && p < |s.procs|
    ensures Inv(c, Do(c, s, Activate(p)))
  {
    if s.procs[p].phase == Idle || s.procs[p].phase == Compiling {
      PutKeeps(c, s, p, Idle, {});
      var t := Put(s, p, Idle, {});
      if t.pending && t.owner == -1 {
        EnterKeeps(c, t, p);
        if Inactive(s, p) {
          assert forall q {:trigger t.procs[q]} :: 0 <= q < |t.procs| && q != p ==>
            t.procs[q] == s.procs[q] && !HoldsUsage(s.procs[q]);
        }
      }
    }
  }

  // ---- whole runs

  lemma {:induction false} RunKeeps(c: Config, s: State, steps: seq<Step>)
    requires Sane(c) && Inv(c, s) && forall k {:trigger steps[k]} :: 0 <= k < |steps| ==> Modest(steps[k])
    ensures Inv(c, Run(c, s, steps))
  {
    if steps != [] {
      RunKeeps(c, s, steps[..|steps| - 1]);
      DoKeeps(c, Run(c, s, steps[..|steps| - 1]), steps[|steps| - 1]);
    }
  }

  /** Whatever the processes do from startup on: nobody has a script in hand while another process resets; a restart is
      due exactly when the accelerator is off, unless one is under way; every scheduled restart but the one that is due
      has run once; and the wasted memory is that of the corrupted scripts, and no more than there is. */
  lemma EveryRun(c: Config, n: nat, steps: seq<Step>)
    requires Sane(c) && forall k {:trigger steps[k]} :: 0 <= k < |steps| ==> Modest(steps[k])
    ensures var s := Run(c, Startup(c, n), steps);
      && (forall p, q {:trigger s.procs[p], s.procs[q]} ::
            0 <= p < |s.procs| && 0 <= q < |s.procs| && p != q && Resets(s.procs[p]) ==>
            !Resets(s.procs[q]) && !Uses(s.procs[q]) && s.procs[q].seen == {} && s.inProgress)
      && (!s.inProgress ==> (s.pending <==> !s.enabled))
      && s.oom + s.hash + s.manual + (if s.pending then 1 else 0) == s.scheduled
      && s.wasted == Wasted(s.scripts) <= Total(s.scripts) <= c.base.mem.free - s.arena.mem.free
      && s.wasted <= c.base.mem.free
  {
    StartupInv(c, n);
    RunKeeps(c, Startup(c, n), steps);
    var s := Run(c, Startup(c, n), steps);
    WastedMost(s.scripts);
    FreeNotNegative(s.arena.mem.segs);
    assert s.arena.mem.free >= 0;
  }

  /** A pointer that a process still has leads to a live block that no other script shares. steps are all the steps so
      far, so this holds for as long as the process has the pointer, whatever has been allocated since. */
  lemma PointersLive(c: Config, n: nat, steps: seq<Step>, p: nat, i: nat, j: nat)
    requires Sane(c) && forall k {:trigger steps[k]} :: 0 <= k < |steps| ==> Modest(steps[k])
    requires var s := Run(c, Startup(c, n), steps);
      p < |s.procs| && i in s.procs[p].seen && j < |s.scripts| && i != j
    ensures var s := Run(c, Startup(c, n), steps);
      && i < |s.scripts| && s.scripts[i].block < |s.arena.blocks| && s.scripts[j].block < |s.arena.blocks|
      && InSegment(s.arena.mem, s.arena.blocks[s.scripts[i].block])
      && (Disjoint(s.arena.blocks[s.scripts[i].block], s.arena.blocks[s.scripts[j].block])
          || Disjoint(s.arena.blocks[s.scripts[j].block], s.arena.blocks[s.scripts[i].block]))
  {
    StartupInv(c, n);
    RunKeeps(c, Startup(c, n), steps);
    var s := Run(c, Startup(c, n), steps);
    var a, b := s.scripts[i].block, s.scripts[j].block;
    assert a != b;
    assert InSegment(s.arena.mem, s.arena.blocks[a]);
    if a < b {
      assert Disjoint(s.arena.blocks[a], s.arena.blocks[b]);
    } else {
      assert Disjoint(s.arena.blocks[b], s.arena.blocks[a]);
    }
  }

  /** A script is charged by the first to invalidate it, and by nobody else until the next restart. */
  lemma ChargedOnce(c: Config, s: State, i: nat, full: bool, full': bool)
    requires i < |s.scripts|
    ensures var r := Charge(c, s, i, full);
      && |r.scripts| == |s.scripts| && r.scripts[i].corrupted && Charge(c, r, i, full') == r
      && r.wasted == s.wasted + if s.scripts[i].corrupted then 0 else s.scripts[i].consumption
  {
  }

  /** A restart that is due, when nobody is in the way: everything is as it was at startup, the accelerator is on, and
      the restart is counted under its reason. */
  lemma RestartComplete(c: Config, s: State, p: nat, s1: State, s2: State, s3: State, r: State)
    requires Sane(c) && Inv(c, s) && p < |s.procs| && s.procs[p].phase == Idle && s.pending && !s.inProgress
    requires Inactive(s, p)
    requires s1 == Do(c, s, Activate(p)) && s2 == Do(c, s1, Clean(p)) && s3 == Do(c, s2, RestoreStatus(p))
    requires r == Do(c, s3, Leave(p))
    ensures r.enabled && !r.pending && !r.inProgress && r.scripts == [] && r.wasted == 0
    ensures r.arena == Arena(c.base.mem.(exhausted := false), c.base.blocks)
    ensures (r.oom, r.hash, r.manual) == Counted(s)
  {
    ActivateKeeps(c, s, p);
    Entered(c, s, p, s1);
    RestartDone(c, s1, p, s2, s3, r);
  }

  /** The restarts after one more for the reason that was given. */
  function Counted(s: State): (nat, nat, nat) {
    match s.reason
    case Oom => (s.oom + 1, s.hash, s.manual)
    case Hash => (s.oom, s.hash + 1, s.manual)
    case User => (s.oom, s.hash, s.manual + 1)
  }

  lemma Entered(c: Config, s: State, p: nat, r: State)
    requires |c.base.mem.segs| == |s.arena.mem.segs| && p < |s.procs| && s.procs[p].phase == Idle
    requires s.pending && s.owner == -1 && Inactive(s, p) && r == Do(c, s, Activate(p))
    ensures p < |r.procs| && r.procs[p].phase == Resetting && (r.oom, r.hash, r.manual) == Counted(s)
  {
    assert r == Enter(Put(s, p, Idle, {}), p);
  }

  lemma RestartDone(c: Config, s1: State, p: nat, s2: State, s3: State, r: State)
    requires Sane(c) && Inv(c, s1) && p < |s1.procs| && s1.procs[p].phase == Resetting
    requires s2 == Do(c, s1, Clean(p)) && s3 == Do(c, s2, RestoreStatus(p)) && r == Do(c, s3, Leave(p))
    ensures r.enabled && !r.pending && !r.inProgress && r.scripts == [] && r.wasted == 0
    ensures r.arena == Arena(c.base.mem.(exhausted := false), c.base.blocks)
    ensures (r.oom, r.hash, r.manual) == (s1.oom, s1.hash, s1.manual)
  {
    EmptyKeeps(c, s1, p);
    assert s2 == Empty(c, Put(s1, p, Cleaned, {}));
    RestartEnds(c, s2, p);
  }

  lemma RestartEnds(c: Config, s: State, p: nat)
    requires Inv(c, s) && p < |s.procs| && s.procs[p].phase == Cleaned
    ensures Do(c, Do(c, s, RestoreStatus(p)), Leave(p)) ==
      Put(s, p, Idle, {}).(enabled := true, inProgress := false, owner := -1) && !s.pending
  {
    assert Resets(s.procs[p]) && s.owner == p && Emptying(s);
    assert s.procs[p := Proc(Leaving, {})][p := Proc(Idle, {})] == s.procs[p := Proc(Idle, {})];
  }

  // ---- what is due is done

  lemma {:induction false} RunAppend(c: Config, s: State, a: seq<Step>, b: seq<Step>)
    requires |c.base.mem.segs| == |s.arena.mem.segs|
    ensures Run(c, s, a + b) == Run(c, Run(c, s, a), b)
  {
    if b == [] {
      assert a + b == a;
    } else {
      var n := |b| - 1;
      RunAppend(c, s, a, b[..n]);
      assert (a + b)[..|a + b| - 1] == a + b[..n] && (a + b)[|a + b| - 1] == b[n];
    }
  }

  /** How many steps a process that is not resetting is from its end, and its next step. */
  function Left(phase: Phase): nat {
    match phase
    case Waiting => 3
    case Holding => 2
    case Compiling => 1
    case Reading => 1
    case Leaving => 1
    case _ => 0
  }

  function Next(p: nat, phase: Phase): Step {
    match phase
    case Waiting => TakeUsage(p)
    case Holding => LookAtFlag(p)
    case Reading => Unlock(p)
    case Leaving => Leave(p)
    case _ => Finish(p)
  }

  /** Steps by which requests come to their end and a restart is carried out: nobody dies. */
  predicate Ordinary(step: Step) {
    step.Finish? || step.TakeUsage? || step.LookAtFlag? || step.Unlock? || step.Activate? || step.Clean?
    || step.RestoreStatus? || step.Leave?
  }

  predicate AllOrdinary(steps: seq<Step>) { forall step {:trigger step in steps} :: step in steps ==> Ordinary(step) }

  /** From s some ordinary steps lead to r. */
  ghost predicate Leads(c: Config, s: State, steps: seq<Step>, r: State) {
    |c.base.mem.segs| == |s.arena.mem.segs| && AllOrdinary(steps) && r == Run(c, s, steps)
  }

  lemma LeadsOn(c: Config, s: State, a: seq<Step>, t: State, b: seq<Step>, r: State)
    requires Leads(c, s, a, t) && Leads(c, t, b, r)
    ensures Leads(c, s, a + b, r)
  {
    RunAppend(c, s, a, b);
  }

  lemma OneStep(c: Config, s: State, a: Step)
    requires |c.base.mem.segs| == |s.arena.mem.segs|
    ensures Run(c, s, [a]) == Do(c, s, a)
  {
    assert [a][..0] == [];
  }

  lemma TwoSteps(c: Config, s: State, a: Step, b: Step)
    requires |c.base.mem.segs| == |s.arena.mem.segs|
    ensures Run(c, s, [a, b]) == Do(c, Do(c, s, a), b)
  {
    OneStep(c, s, a);
    assert [a, b][..1] == [a];
  }

  /** Of the processes only p may differ. */
  predicate Beside(s: State, r: State, p: nat) {
    && p < |s.procs| == |r.procs|
    && (forall q {:trigger r.procs[q]} :: 0 <= q < |s.procs| && q != p ==> r.procs[q] == s.procs[q])
  }

  /** Nobody but p, if that, is at the end of another restart. */
  predicate AtEnd(s: State, p: nat) { s.pending && (s.owner == -1 || s.owner == p) }

  /** r is where the step of process p comes that is one step closer to its end. */
  ghost predicate Closer(c: Config, s: State, p: nat, r: State) {
    Inv(c, r) && AtEnd(r, p) && Beside(s, r, p) && Left(r.procs[p].phase) < Left(s.procs[p].phase)
  }

  lemma LeaveCloser(c: Config, s: State, p: nat, r: State)
    requires Inv(c, s) && p < |s.procs| && AtEnd(s, p) && s.procs[p].phase == Leaving
    requires r == Put(s, p, Idle, {}).(inProgress := false, owner := -1)
    ensures Closer(c, s, p, r)
  {
    LastPhases(c, s, p);
  }

  lemma PutCloser(c: Config, s: State, p: nat, phase: Phase, r: State)
    requires Inv(c, s) && p < |s.procs| && AtEnd(s, p) && !Resets(s.procs[p]) && s.owner == -1
    requires phase in {Idle, Holding, Reading} && Left(phase) < Left(s.procs[p].phase) && r == Put(s, p, phase, {})
    ensures Closer(c, s, p, r)
  {
    PutKeeps(c, s, p, phase, {});
  }

  lemma StepsCloser(c: Config, s: State, p: nat, r: State)
    requires Inv(c, s) && p < |s.procs| && AtEnd(s, p) && Left(s.procs[p].phase) > 0
    requires r == Do(c, s, Next(p, s.procs[p].phase))
    ensures Closer(c, s, p, r)
  {
    assert Resets(s.procs[p]) <==> p == s.owner;
    if s.procs[p].phase == Leaving {
      LeaveCloser(c, s, p, r);
    } else {
      PutCloser(c, s, p, r.procs[p].phase, r);
    }
  }

  lemma ComesCloser(c: Config, s: State, p: nat) returns (step: Step, r: State)
    requires Inv(c, s) && p < |s.procs| && AtEnd(s, p) && Left(s.procs[p].phase) > 0
    ensures Leads(c, s, [step], r) && Closer(c, s, p, r)
  {
    step := Next(p, s.procs[p].phase);
    OneStep(c, s, step);
    r := Run(c, s, [step]);
    StepsCloser(c, s, p, r);
  }

  lemma {:induction false} GivesUp(c: Config, s: State, p: nat) returns (steps: seq<Step>, r: State)
    requires Inv(c, s) && p < |s.procs| && AtEnd(s, p)
    ensures Leads(c, s, steps, r)
    ensures Inv(c, r) && AtEnd(r, p) && Beside(s, r, p) && Left(r.procs[p].phase) == 0
    decreases Left(s.procs[p].phase)
  {
    steps, r := [], s;
    if Left(s.procs[p].phase) > 0 {
      var step, t := ComesCloser(c, s, p);
      var rest;
      rest, r := GivesUp(c, t, p);
      LeadsOn(c, s, [step], t, rest, r);
      steps := [step] + rest;
      BesideTwice(s, t, r, p);
    }
  }

  lemma BesideTwice(s: State, t: State, r: State, p: nat)
    requires Beside(s, t, p) && Beside(t, r, p)
    ensures Beside(s, r, p)
  {
    assert forall q {:trigger r.procs[q]} :: 0 <= q < |s.procs| && q != p ==> r.procs[q] == t.procs[q];
  }

  lemma AtRest(c: Config, s: State, p: nat)
    requires Inv(c, s) && p < |s.procs| && AtEnd(s, p) && Left(s.procs[p].phase) == 0
    ensures s.procs[p].phase == Idle && s.owner == -1
  {
    assert Resets(s.procs[p]) <==> p == s.owner;
  }

  /** Processes 0 to n - 1 are idle, and a restart is due. */
  predicate IdleTo(s: State, n: nat) {
    && s.pending && s.owner == -1
    && forall q {:trigger s.procs[q]} :: 0 <= q < n && q < |s.procs| ==> s.procs[q].phase == Idle
  }

  lemma OneMoreIdle(c: Config, s: State, n: nat, p: nat, r: State)
    requires Inv(c, s) && Inv(c, r) && AtEnd(r, p) && Beside(s, r, p) && Left(r.procs[p].phase) == 0
    requires n == 0 || (p == n - 1 && IdleTo(s, n - 1))
    ensures IdleTo(r, n)
  {
    AtRest(c, r, p);
    assert forall q {:trigger r.procs[q]} :: 0 <= q < n && q != p ==> r.procs[q] == s.procs[q];
  }

  /** First whoever is still at the end of another restart comes to its end, then processes 0 to n - 1 do in turn. */
  lemma {:induction false} AllGiveUp(c: Config, s: State, n: nat) returns (steps: seq<Step>, r: State)
    requires Inv(c, s) && s.pending && n <= |s.procs|
    ensures Leads(c, s, steps, r)
    ensures Inv(c, r) && IdleTo(r, n) && |r.procs| == |s.procs|
  {
    steps, r := [], s;
    if n > 0 {
      steps, r := AllGiveUp(c, s, n - 1);
    }
    var p := if n == 0 then s.owner else n - 1;
    if p >= 0 {
      var rest, t := GivesUp(c, r, p);
      LeadsOn(c, s, steps, r, rest, t);
      OneMoreIdle(c, r, n, p, t);
      steps, r := steps + rest, t;
    }
  }

  lemma IsInactive(s: State)
    requires |s.procs| > 0 && IdleTo(s, |s.procs|)
    ensures s.procs[0].phase == Idle && Inactive(s, 0)
  {
  }

  predicate Afresh(s: State) { s.enabled && !s.pending && !s.inProgress && s.scripts == [] && s.wasted == 0 }

  lemma RunsRestart(c: Config, s: State, s1: State, s2: State, s3: State, r: State)
    requires |c.base.mem.segs| == |s.arena.mem.segs| && s1 == Do(c, s, Activate(0)) && s2 == Do(c, s1, Clean(0))
    requires s3 == Do(c, s2, RestoreStatus(0)) && r == Do(c, s3, Leave(0))
    ensures Leads(c, s, [Activate(0), Clean(0)] + [RestoreStatus(0), Leave(0)], r)
  {
    TwoSteps(c, s, Activate(0), Clean(0));
    TwoSteps(c, s2, RestoreStatus(0), Leave(0));
    LeadsOn(c, s, [Activate(0), Clean(0)], s2, [RestoreStatus(0), Leave(0)], r);
  }

  lemma CarriedOut(c: Config, s: State) returns (steps: seq<Step>, r: State)
    requires Sane(c) && Inv(c, s) && |s.procs| > 0 && IdleTo(s, |s.procs|)
    ensures Leads(c, s, steps, r) && Afresh(r)
  {
    IsInactive(s);
    var s1 := Do(c, s, Activate(0));
    var s2 := Do(c, s1, Clean(0));
    var s3 := Do(c, s2, RestoreStatus(0));
    steps, r := [Activate(0), Clean(0)] + [RestoreStatus(0), Leave(0)], Do(c, s3, Leave(0));
    RestartComplete(c, s, 0, s1, s2, s3, r);
    RunsRestart(c, s, s1, s2, s3, r);
  }

  /** A restart that is due can always be carried out, whatever the processes are doing: they only have to come to the
      end of what they do. Nobody waits for ever. */
  lemma RestartComes(c: Config, s: State) returns (steps: seq<Step>, r: State)
    requires Sane(c) && Inv(c, s) && s.pending && |s.procs| > 0
    ensures Leads(c, s, steps, r) && Afresh(r)
  {
    var before, t := AllGiveUp(c, s, |s.procs|);
    var rest;
    rest, r := CarriedOut(c, t);
    LeadsOn(c, s, before, t, rest, r);
    steps := before + rest;
  }

  /** What one process stores, another finds: the same script, in a block of its own of the size asked for. */
  ghost predicate Found(s: State, r: State, p: nat, q: nat, size: nat) {
    && p < |r.procs| && q < |r.procs| && |s.scripts| in r.procs[p].seen && |s.scripts| in r.procs[q].seen
    && r.scripts == s.scripts + [Script(|s.arena.blocks|, Aligned(size), false)]
    && |s.arena.blocks| < |r.arena.blocks| && r.arena.blocks[|s.arena.blocks|].size == size
    && InSegment(r.arena.mem, r.arena.blocks[|s.arena.blocks|])
  }

  lemma StoredIsFound(c: Config, s: State, p: nat, q: nat, size: nat, s1: State, s2: State, s3: State, r: State)
    requires Sane(c) && Inv(c, s) && p < |s.procs| && q < |s.procs| && p != q && s.enabled && !s.inProgress
    requires s.procs[p].phase == Idle && s.procs[q].phase == Idle
    requires Aligned(size) < TWO_32 && !NoRoom(s.arena.mem, BlockSize(size))
    requires s1 == Do(c, s, Compile(p)) && s2 == Do(c, s1, Cache(p, size, false, false))
    requires s3 == Do(c, s2, Compile(q)) && r == Do(c, s3, Find(q, |s.scripts|))
    ensures Found(s, r, p, q, size)
  {
    AllocateExactly(c, s, size, Allocate(c, s, size));
    ProcessStores(c, s, p, size, s1, s2);
    ProcessFinds(c, s2, q, |s.scripts|, s3, r);
  }

  lemma ProcessFinds(c: Config, s: State, q: nat, i: nat, t: State, r: State)
    requires |c.base.mem.segs| == |s.arena.mem.segs| && q < |s.procs| && s.procs[q].phase == Idle && i < |s.scripts|
    requires s.enabled && !s.inProgress && t == Do(c, s, Compile(q)) && r == Do(c, t, Find(q, i))
    ensures r == s.(procs := r.procs) && Beside(s, r, q) && i in r.procs[q].seen
  {
    assert t == Put(s, q, Compiling, {});
    assert r == Put(t, q, Compiling, {} + {i});
  }

  lemma ProcessStores(c: Config, s: State, p: nat, size: nat, t: State, r: State)
    requires |c.base.mem.segs| == |s.arena.mem.segs| && Housed(c, s) && p < |s.procs| && s.procs[p].phase == Idle
    requires s.enabled && !s.inProgress && s.owner == -1 && Aligned(size) < TWO_32 && Granted(s, size)
    requires t == Do(c, s, Compile(p)) && r == Do(c, t, Cache(p, size, false, false))
    ensures r.enabled && !r.inProgress && Beside(s, r, p) && |s.scripts| in r.procs[p].seen
    ensures r.scripts == s.scripts + [Script(|s.arena.blocks|, Aligned(size), false)]
    ensures |c.base.mem.segs| == |r.arena.mem.segs|
    ensures |s.arena.blocks| < |r.arena.blocks| && r.arena.blocks[|s.arena.blocks|].size == size
    ensures InSegment(r.arena.mem, r.arena.blocks[|s.arena.blocks|])
  {
    assert t == Put(s, p, Compiling, {});
    AllocateArena(c, s, size);
    assert Allocate(c, t, size).arena == Allocate(c, s, size).arena;
    StoreGranted(c, t, p, size, r);
  }

  lemma StoreGranted(c: Config, s: State, p: nat, size: nat, r: State)
    requires |c.base.mem.segs| == |s.arena.mem.segs| && p < |s.procs| && s.procs[p].phase == Compiling
    requires s.owner == -1 && Granted(s, size) && r == Do(c, s, Cache(p, size, false, false))
    ensures r == Put(Allocate(c, s, size), p, Compiling, s.procs[p].seen + {|s.scripts|})
                   .(scripts := s.scripts + [Script(|s.arena.blocks|, Aligned(size), false)])
  {
  }

  /** The read lock is got exactly if no restart is in progress when the flag is looked at, after the usage lock has
      been taken. */
  lemma ReadLockExact(c: Config, s: State, p: nat, s1: State, s2: State, r: State)
    requires |c.base.mem.segs| == |s.arena.mem.segs| && p < |s.procs| && s.procs[p].phase == Idle && s.enabled
    requires s1 == Do(c, s, Check(p)) && s2 == Do(c, s1, TakeUsage(p)) && r == Do(c, s2, LookAtFlag(p))
    ensures r == s.(procs := r.procs) && Beside(s, r, p)
    ensures r.procs[p].phase == if s.inProgress then Idle else Reading
    ensures Do(c, r, Unlock(p)).procs[p].phase == Idle
  {
    assert s1 == Put(s, p, Waiting, {});
    assert s2 == Put(s1, p, Holding, {});
    assert r == Put(s2, p, if s.inProgress then Idle else Reading, {});
  }

  /** None but p is compiling or has the usage lock. */
  predicate Alone(s: State, p: nat) {
    forall q {:trigger s.procs[q]} :: 0 <= q < |s.procs| && q != p ==>
      s.procs[q].phase != Compiling && s.procs[q].phase != Holding && s.procs[q].phase != Reading
  }

  lemma InactiveIs(s: State, p: nat)
    ensures Inactive(s, p) <==> Alone(s, p)
  {
  }

  /** A restart that is due begins at a request if and only if nobody else is compiling or has the usage lock, and no
      other restart is under way; the process that begins it has let go of what it had. */
  lemma BeginsExactly(c: Config, s: State, p: nat, t: State, r: State)
    requires |c.base.mem.segs| == |s.arena.mem.segs| && p < |s.procs|
    requires s.procs[p].phase == Idle || s.procs[p].phase == Compiling
    requires t == Put(s, p, Idle, {}) && r == Do(c, s, Activate(p))
    ensures if s.pending && s.owner == -1 && Alone(s, p)
            then Beside(s, r, p) && r.procs[p] == Proc(Resetting, {}) && r.owner == p && r.inProgress && !r.pending
            else r == t
  {
    InactiveIs(s, p);
  }

  /** Whoever dies outside a restart leaves nothing behind. */
  lemma DeathLeavesNothing(c: Config, s: State, p: nat, r: State)
    requires |c.base.mem.segs| == |s.arena.mem.segs| && p < |s.procs| && !Resets(s.procs[p]) && r == Do(c, s, Die(p))
    ensures Beside(s, r, p) && r.procs[p] == Proc(Idle, {}) && r == s.(procs := r.procs)
  {
  }

  /** A key for a script takes a block, if there is a place in the hash and memory for it. */
  lemma KeyIsStored(c: Config, s: State, p: nat, size: nat, full: bool, r: State)
    requires c.memoryConsumption > 0 && |c.base.mem.segs| == |s.arena.mem.segs| && p < |s.procs|
    requires s.procs[p].phase == Compiling && s.owner == -1 && Sound(s.arena.mem, s.arena.blocks)
    requires r == Do(c, s, AddKey(p, size, full))
    ensures |r.arena.blocks| == |s.arena.blocks| + if full || NoRoom(s.arena.mem, BlockSize(size)) then 0 else 1
  {
    StoreKeySchedules(c, s, size, full, StoreKey(c, s, size, full));
  }

  /** A reset that is asked for while the accelerator is on is scheduled as such; a script in hand is invalidated. */
  lemma RequestsAct(c: Config, s: State, p: nat, i: nat, full: bool)
    requires |c.base.mem.segs| == |s.arena.mem.segs| && p < |s.procs| && i < |s.scripts|
    ensures ScheduledFor(s, Do(c, s, Reset(p)), s.enabled, User)
    ensures Uses(s.procs[p]) && s.owner == -1 && i in s.procs[p].seen ==>
              (|Do(c, s, Invalidate(p, i, full)).scripts| == |s.scripts|
               && Do(c, s, Invalidate(p, i, full)).scripts[i].corrupted)
  {
    var r := Do(c, s, Invalidate(p, i, full));
    if Uses(s.procs[p]) && s.owner == -1 && i in s.procs[p].seen {
      ChargedOnce(c, s, i, full, full);
      assert r == Charge(c, s, i, full);
    }
  }

  // ---- which restarts are scheduled, and under which reason

  predicate AtLimit(c: Config, wasted: nat) { wasted as real >= c.maxWasted * c.memoryConsumption as real }

  /** A restart becomes necessary at the limit, not below it. */
  lemma NecessaryAtLimit(c: Config, wasted: nat)
    requires c.memoryConsumption > 0
    ensures Necessary(c, wasted) <==> AtLimit(c, wasted)
  {
    var n := c.memoryConsumption as real;
    assert wasted as real / n * n == wasted as real;
    if wasted as real / n >= c.maxWasted {
      assert wasted as real / n * n >= c.maxWasted * n;
    } else {
      assert wasted as real / n * n < c.maxWasted * n;
    }
  }

  /** A restart is due in r that was not in s, for this reason, with the accelerator off and its status kept; or, if one
      was due already or why is false, nothing about restarts has changed. */
  predicate ScheduledFor(s: State, r: State, why: bool, reason: Reason) {
    && (r.pending <==> s.pending || why)
    && r.reason == (if why && !s.pending then reason else s.reason)
    && r.enabled == (s.enabled && (s.pending || !why))
    && r.statusBefore == (if why && !s.pending then s.enabled else s.statusBefore)
    && (r.oom, r.hash, r.manual) == (s.oom, s.hash, s.manual)
  }

  /** Invalidating a script schedules a restart exactly if the script was not invalid yet, memory was exhausted before,
      and what is wasted now has reached the limit. */
  lemma ChargeSchedules(c: Config, s: State, i: nat, full: bool, r: State)
    requires c.memoryConsumption > 0 && i < |s.scripts| && r == Charge(c, s, i, full)
    ensures ScheduledFor(s, r, !s.scripts[i].corrupted && s.arena.mem.exhausted
                               && AtLimit(c, s.wasted + s.scripts[i].consumption), if full then Hash else Oom)
  {
    NecessaryAtLimit(c, s.wasted + s.scripts[i].consumption);
  }

  lemma IfNecessarySchedules(c: Config, s: State, t: State, reason: Reason, r: State)
    requires r == ScheduleIfNecessary(c, t, reason) && t.wasted == s.wasted && ScheduledFor(s, t, false, reason)
    ensures ScheduledFor(s, r, Necessary(c, s.wasted), reason) && r.arena == t.arena && r.scripts == t.scripts
  {
  }

  lemma StoreInTurn(c: Config, s: State, p: nat, size: nat, keyFails: bool, a: State, t: State, r: State)
    requires p < |s.procs| && |c.base.mem.segs| == |s.arena.mem.segs|
    requires Granted(s, size) && a == Allocate(c, s, size) && r == Store(c, s, p, size, false, keyFails)
    requires t == Put(a, p, s.procs[p].phase, s.procs[p].seen + {|s.scripts|})
                    .(scripts := s.scripts + [Script(|s.arena.blocks|, Aligned(size), false)])
    ensures ScheduledFor(s, r, keyFails && Necessary(c, s.wasted), Hash)
    ensures r.arena == a.arena.(mem := a.arena.mem.(exhausted := a.arena.mem.exhausted || keyFails))
    ensures |r.scripts| == |s.scripts| + 1
  {
    assert ScheduledFor(s, t, false, Hash);
    if keyFails {
      IfNecessarySchedules(c, s, Exhaust(t), Hash, r);
    }
  }

  lemma StoreAsks(c: Config, s: State, p: nat, size: nat, full: bool, keyFails: bool, a: State, r: State)
    requires p < |s.procs| && |c.base.mem.segs| == |s.arena.mem.segs|
    requires a == Allocate(c, s, size) && r == Store(c, s, p, size, full, keyFails)
    ensures ScheduledFor(s, r, (full || keyFails || !Granted(s, size)) && Necessary(c, s.wasted),
                         if full || Granted(s, size) then Hash else Oom)
    ensures r.arena.mem.exhausted == if full then true else a.arena.mem.exhausted || (Granted(s, size) && keyFails)
    ensures |r.scripts| == |s.scripts| + if full || !Granted(s, size) then 0 else 1
  {
    if full {
      IfNecessarySchedules(c, s, Exhaust(s), Hash, r);
    } else if !Granted(s, size) {
      IfNecessarySchedules(c, s, a, Oom, r);
    } else {
      StoreInTurn(c, s, p, size, keyFails, a, Put(a, p, s.procs[p].phase, s.procs[p].seen + {|s.scripts|})
                    .(scripts := s.scripts + [Script(|s.arena.blocks|, Aligned(size), false)]), r);
    }
  }

  lemma StoreKeyAsks(c: Config, s: State, size: nat, full: bool, a: State, r: State)
    requires |c.base.mem.segs| == |s.arena.mem.segs|
    requires a == Allocate(c, s, size) && r == StoreKey(c, s, size, full)
    ensures ScheduledFor(s, r, (full || !Granted(s, size)) && Necessary(c, s.wasted), if full then Hash else Oom)
    ensures r.arena.mem.exhausted == if full then true else a.arena.mem.exhausted
    ensures r.arena.blocks == if full then s.arena.blocks else a.arena.blocks
  {
    if full {
      IfNecessarySchedules(c, s, Exhaust(s), Hash, r);
    } else if !Granted(s, size) {
      IfNecessarySchedules(c, s, a, Oom, r);
    }
  }

  lemma AllocateExactly(c: Config, s: State, size: nat, a: State)
    requires |c.base.mem.segs| == |s.arena.mem.segs| && Sound(s.arena.mem, s.arena.blocks)
    requires a == Allocate(c, s, size)
    ensures Granted(s, size) <==> !NoRoom(s.arena.mem, BlockSize(size))
    ensures |a.arena.blocks| == |s.arena.blocks| + if Granted(s, size) then 1 else 0
    ensures a.arena.mem.exhausted == (s.arena.mem.exhausted || (!Granted(s, size) && NoRoom(s.arena.mem, 65536)))
  {
    AllocExactly(s.arena.mem, s.arena.blocks, size);
  }

  /** Storing a script schedules one exactly if there was no place in the hash, no memory, or no place for a second key,
      and the limit is reached; and notes that memory is exhausted. */
  lemma StoreSchedules(c: Config, s: State, p: nat, size: nat, full: bool, keyFails: bool, r: State)
    requires c.memoryConsumption > 0 && p < |s.procs| && |c.base.mem.segs| == |s.arena.mem.segs|
    requires Sound(s.arena.mem, s.arena.blocks) && r == Store(c, s, p, size, full, keyFails)
    ensures ScheduledFor(s, r, (full || keyFails || NoRoom(s.arena.mem, BlockSize(size))) && AtLimit(c, s.wasted),
                         if full || !NoRoom(s.arena.mem, BlockSize(size)) then Hash else Oom)
    ensures r.arena.mem.exhausted == (s.arena.mem.exhausted || full || if NoRoom(s.arena.mem, BlockSize(size))
                                      then NoRoom(s.arena.mem, 65536) else keyFails)
    ensures |r.scripts| == |s.scripts| + if full || NoRoom(s.arena.mem, BlockSize(size)) then 0 else 1
  {
    NecessaryAtLimit(c, s.wasted);
    AllocateExactly(c, s, size, Allocate(c, s, size));
    StoreAsks(c, s, p, size, full, keyFails, Allocate(c, s, size), r);
  }

  /** So does storing one more key. */
  lemma StoreKeySchedules(c: Config, s: State, size: nat, full: bool, r: State)
    requires c.memoryConsumption > 0 && |c.base.mem.segs| == |s.arena.mem.segs|
    requires Sound(s.arena.mem, s.arena.blocks) && r == StoreKey(c, s, size, full)
    ensures ScheduledFor(s, r, (full || NoRoom(s.arena.mem, BlockSize(size))) && AtLimit(c, s.wasted),
                         if full then Hash else Oom)
    ensures r.arena.mem.exhausted == (s.arena.mem.exhausted || full
                                      || (NoRoom(s.arena.mem, BlockSize(size)) && NoRoom(s.arena.mem, 65536)))
    ensures |r.arena.blocks| == |s.arena.blocks| + if full || NoRoom(s.arena.mem, BlockSize(size)) then 0 else 1
  {
    NecessaryAtLimit(c, s.wasted);
    AllocateExactly(c, s, size, Allocate(c, s, size));
    StoreKeyAsks(c, s, size, full, Allocate(c, s, size), r);
  }

  /** The counters of r are those of s, except that the one of this reason has gone up by n. */
  predicate Raised(s: State, r: State, reason: Reason, n: nat) {
    && r.oom == s.oom + (if reason == Oom then n else 0)
    && r.hash == s.hash + (if reason == Hash then n else 0)
    && r.manual == s.manual + if reason == User then n else 0
  }

  /** The restart was due before every one of the steps. */
  predicate DueUntil(c: Config, s: State, steps: seq<Step>)
    requires |c.base.mem.segs| == |s.arena.mem.segs|
  {
    forall k {:trigger steps[..k]} :: 0 <= k < |steps| ==> Run(c, s, steps[..k]).pending
  }

  lemma StoringCountsNone(c: Config, s: State, step: Step, r: State)
    requires |c.base.mem.segs| == |s.arena.mem.segs| && s.pending && step.p < |s.procs| && r == Do(c, s, step)
    requires step.Cache? || step.AddKey? || step.Invalidate?
    ensures r.pending && r.reason == s.reason && Raised(s, r, s.reason, 0)
  {
    if step.Cache? {
      StoreAsks(c, s, step.p, step.size, step.full, step.keyFails, Allocate(c, s, step.size),
                Store(c, s, step.p, step.size, step.full, step.keyFails));
    } else if step.AddKey? {
      StoreKeyAsks(c, s, step.size, step.full, Allocate(c, s, step.size), StoreKey(c, s, step.size, step.full));
    }
  }

  lemma ActivateCounts(s: State, p: nat, t: State)
    requires p < |s.procs| && s.pending && t == Put(s, p, Idle, {})
    ensures Raised(s, t, s.reason, 0) && Raised(s, Enter(t, p), s.reason, 1) && !Enter(t, p).pending
  {
  }

  lemma CountedByStep(c: Config, s: State, step: Step, r: State)
    requires Inv(c, s) && s.pending && r == Do(c, s, step)
    ensures r.pending ==> r.reason == s.reason
    ensures Raised(s, r, s.reason, if r.pending then 0 else 1)
  {
    if step.p < |s.procs| {
      if step.Cache? || step.AddKey? || step.Invalidate? {
        StoringCountsNone(c, s, step, r);
      } else if step.Activate? {
        ActivateCounts(s, step.p, Put(s, step.p, Idle, {}));
      } else if step.Clean? {
        assert Resets(s.procs[step.p]) ==> step.p == s.owner;
      }
    }
  }

  lemma {:induction false} CountedAfter(c: Config, s: State, steps: seq<Step>)
    requires Sane(c) && Inv(c, s) && forall k {:trigger steps[k]} :: 0 <= k < |steps| ==> Modest(steps[k])
    requires s.pending && DueUntil(c, s, steps)
    ensures var r := Run(c, s, steps);
      Inv(c, r) && (r.pending ==> r.reason == s.reason) && Raised(s, r, s.reason, if r.pending then 0 else 1)
  {
    if steps != [] {
      var n := |steps| - 1;
      forall k {:trigger steps[..n][..k]} | 0 <= k < n ensures Run(c, s, steps[..n][..k]).pending {
        assert steps[..n][..k] == steps[..k];
      }
      CountedAfter(c, s, steps[..n]);
      var t := Run(c, s, steps[..n]);
      DoKeeps(c, t, steps[n]);
      CountedByStep(c, t, steps[n], Do(c, t, steps[n]));
    }
  }

  /** A restart that is scheduled for a reason while none is due or under way, and whatever the processes do until it
      begins: then, and not before, the counter of this very reason has gone up by one, and the others have not. */
  lemma ReasonCounted(c: Config, s: State, reason: Reason, steps: seq<Step>)
    requires Sane(c) && Inv(c, s) && forall k {:trigger steps[k]} :: 0 <= k < |steps| ==> Modest(steps[k])
    requires !s.pending && !Emptying(s) && DueUntil(c, Schedule(s, reason), steps)
    ensures var r := Run(c, Schedule(s, reason), steps); Raised(s, r, reason, if r.pending then 0 else 1)
  {
    ScheduleKeeps(c, s, reason);
    CountedAfter(c, Schedule(s, reason), steps);
  }

  // ---- what the instants are good for

  /** The accelerator is off, and will be after the next restart too. */
  predicate Dead(s: State) { !s.enabled && !s.statusBefore }

  /** A restart scheduled by a process that found the accelerator on before, but acts only while another restart is
      under way, is wiped out with the rest, and has saved the wrong status. */
  lemma ScheduledTooLate(c: Config, s: State, p: nat, reason: Reason)
    requires Sane(c) && Inv(c, s) && p < |s.procs| && s.procs[p].phase == Resetting
    ensures var s2 := Do(c, Schedule(s, reason), Clean(p));
      Dead(s2) && !s2.pending && s2.scheduled == s.scheduled + 1
        && s2.oom + s2.hash + s2.manual == s.oom + s.hash + s.manual
    ensures Dead(Schedule(s, reason))
  {
    assert Resets(s.procs[p]) && s.owner == p && Emptying(s);
  }

  /** Then the accelerator stays off for ever, whatever the processes do. */
  lemma {:induction false} DeadForEver(c: Config, s: State, steps: seq<Step>)
    requires |c.base.mem.segs| == |s.arena.mem.segs| && Dead(s)
    ensures Dead(Run(c, s, steps))
  {
    if steps != [] {
      DeadForEver(c, s, steps[..|steps| - 1]);
      StaysDead(c, Run(c, s, steps[..|steps| - 1]), steps[|steps| - 1]);
    }
  }

  lemma StoringStaysDead(c: Config, s: State, step: Step)
    requires |c.base.mem.segs| == |s.arena.mem.segs| && Dead(s) && (step.Cache? || step.AddKey? || step.Invalidate?)
    ensures Dead(Do(c, s, step))
  {
    if step.p < |s.procs| {
      if step.Cache? {
        StoreAsks(c, s, step.p, step.size, step.full, step.keyFails, Allocate(c, s, step.size),
                  Store(c, s, step.p, step.size, step.full, step.keyFails));
      } else if step.AddKey? {
        StoreKeyAsks(c, s, step.size, step.full, Allocate(c, s, step.size), StoreKey(c, s, step.size, step.full));
      }
    }
  }

  lemma StaysDead(c: Config, s: State, step: Step)
    requires |c.base.mem.segs| == |s.arena.mem.segs| && Dead(s)
    ensures Dead(Do(c, s, step))
  {
    if step.Cache? || step.AddKey? || step.Invalidate? {
      StoringStaysDead(c, s, step);
    }
  }

  /** In order, that never happens. */
  lemma NeverDead(c: Config, s: State, steps: seq<Step>)
    requires Sane(c) && Inv(c, s) && forall k {:trigger steps[k]} :: 0 <= k < |steps| ==> Modest(steps[k])
    ensures !Dead(Run(c, s, steps))
  {
    RunKeeps(c, s, steps);
  }
}
