/** The functions that schedule and carry out a restart and keep the account of wasted memory, on the shared fields. */
module RestartSteps {
  import opened Alignment
  import opened SharedAlloc
  import opened Restart

  class Accelerator {
    const c: Config
    var acceleratorEnabled: bool
    var restartPending: bool
    var restartInProgress: bool
    var cacheStatusBeforeRestart: bool
    var restartReason: Reason
    var oomRestarts: nat
    var hashRestarts: nat
    var manualRestarts: nat
    var wastedSharedMemory: nat
    var scripts: seq<Script>
    var arena: Arena
    var procs: seq<Proc>
    var owner: int
    ghost var scheduled: nat

    ghost function Now(): State
      reads this
    {
      State(acceleratorEnabled, restartPending, restartInProgress, cacheStatusBeforeRestart, restartReason, oomRestarts,
            hashRestarts, manualRestarts, wastedSharedMemory, scripts, arena, procs, owner, scheduled)
    }

    ghost predicate Valid()
      reads this
    {
      |c.base.mem.segs| == |arena.mem.segs|
    }

    constructor (c: Config, n: nat)
      ensures this.c == c && Valid() && Now() == Startup(c, n)
    {
      this.c := c;
      acceleratorEnabled, restartPending, restartInProgress, cacheStatusBeforeRestart := true, false, false, false;
      restartReason, oomRestarts, hashRestarts, manualRestarts := Oom, 0, 0, 0;
      wastedSharedMemory, scripts, arena := 0, [], c.base;
      procs, owner, scheduled := seq(n, i => Proc(Idle, {})), -1, 0;
    }

    /** zend_accel_schedule_restart */
    method ScheduleRestart(reason: Reason)
      modifies this
      ensures Now() == Schedule(old(Now()), reason)
    {
      if restartPending { return; }
      restartPending := true;
      restartReason := reason;
      cacheStatusBeforeRestart := acceleratorEnabled;
      acceleratorEnabled := false;
      scheduled := scheduled + 1;
    }

    /** zend_accel_schedule_restart_if_necessary */
    method ScheduleRestartIfNecessary(reason: Reason)
      modifies this
      ensures Now() == ScheduleIfNecessary(c, old(Now()), reason)
    {
      if Necessary(c, wastedSharedMemory) {
        ScheduleRestart(reason);
      }
    }

    /** The part under the lock of zend_accel_invalidate and of the two checks in persistent_compile_file. */
    method MarkCorrupted(i: nat, full: bool)
      requires Valid() && i < |scripts|
      modifies this
      ensures Now() == Charge(c, old(Now()), i, full)
    {
      if !scripts[i].corrupted {
        wastedSharedMemory := wastedSharedMemory + scripts[i].consumption;
        scripts := scripts[i := scripts[i].(corrupted := true)];
        if arena.mem.exhausted {
          ScheduleRestartIfNecessary(if full then Hash else Oom);
        }
      }
    }

    method MemoryExhausted()
      modifies this
      ensures Now() == Exhaust(old(Now()))
    {
      arena := arena.(mem := arena.mem.(exhausted := true));
    }

    method ZendSharedAlloc(size: nat) returns (ok: bool)
      requires Valid()
      modifies this
      ensures Valid() && Now() == Allocate(c, old(Now()), size) && ok == old(Granted(Now(), size))
    {
      ok := Alloc(arena.mem, size).1 >= 0;
      arena := Called(arena, Save(c.base.mem), c.base.blocks, Allocates(size));
    }

    /** The part under the lock of cache_script_in_shared_memory, for a script that is not cached yet. */
    method CacheScript(p: nat, size: nat, full: bool, keyFails: bool) returns (cached: bool)
      requires Valid() && p < |procs|
      modifies this
      ensures Now() == Store(c, old(Now()), p, size, full, keyFails)
      ensures cached == (!full && old(Granted(Now(), size)))
    {
      if full {
        MemoryExhausted();
        ScheduleRestartIfNecessary(Hash);
        return false;
      }
      var block := |arena.blocks|;
      cached := ZendSharedAlloc(size);
      if !cached {
        ScheduleRestartIfNecessary(Oom);
        return;
      }
      procs := procs[p := procs[p].(seen := procs[p].seen + {|scripts|})];
      scripts := scripts + [Script(block, Aligned(size), false)];
      if keyFails {
        MemoryExhausted();
        ScheduleRestartIfNecessary(Hash);
      }
    }

    /** zend_accel_add_key, for a key that is new */
    method AddKey(size: nat, full: bool)
      requires Valid()
      modifies this
      ensures Now() == StoreKey(c, old(Now()), size, full)
    {
      if full {
        MemoryExhausted();
        ScheduleRestartIfNecessary(Hash);
      } else {
        var ok := ZendSharedAlloc(size);
        if !ok {
          ScheduleRestartIfNecessary(Oom);
        }
      }
    }

    /** persistent_compile_file: what is checked, and the usage lock */
    method StartCompiling(p: nat)
      requires Valid() && p < |procs| && procs[p].phase == Idle
      modifies this
      ensures Now() == Do(c, old(Now()), Compile(p))
    {
      if acceleratorEnabled && !restartInProgress {
        procs := procs[p := Proc(Compiling, {})];
      }
    }

    /** The second half of accelerator_shm_read_lock, when the usage lock has been taken. */
    method ReadLock(p: nat) returns (ok: bool)
      requires Valid() && p < |procs| && procs[p].phase == Holding
      modifies this
      ensures Now() == Do(c, old(Now()), LookAtFlag(p)) && ok == !restartInProgress
    {
      ok := !restartInProgress;
      procs := procs[p := Proc(if ok then Reading else Idle, {})];
    }

    /** accel_activate up to the point where the restart has begun */
    method Activate(p: nat) returns (restarting: bool)
      requires Valid() && p < |procs| && (procs[p].phase == Idle || procs[p].phase == Compiling)
      modifies this
      ensures Now() == Do(c, old(Now()), Step.Activate(p))
      ensures restarting == old(restartPending && owner == -1 && Inactive(Now(), p))
    {
      restarting := restartPending && owner == -1 &&
        (forall q :: 0 <= q < |procs| && q != p ==> !HoldsUsage(procs[q]));
      procs := procs[p := Proc(Idle, {})];
      if restarting {
        BeginRestart(p);
      }
    }

    method BeginRestart(p: nat)
      requires p < |procs|
      modifies this
      ensures Now() == Enter(old(Now()), p)
    {
      restartPending := false;
      match restartReason {
        case Oom => oomRestarts := oomRestarts + 1;
        case Hash => hashRestarts := hashRestarts + 1;
        case User => manualRestarts := manualRestarts + 1;
      }
      owner := p;
      restartInProgress := true;
      procs := procs[p := Proc(Resetting, {})];
    }

    /** The rest of the restart, up to where the accelerator is switched on again. */
    method ResetCache(p: nat)
      requires Valid() && p < |procs| && procs[p].phase == Resetting
      modifies this
      ensures Now() == Empty(c, Put(old(Now()), p, Cleaned, {}))
    {
      wastedSharedMemory := 0;
      restartPending := false;
      scripts := [];
      arena := Called(arena, Save(c.base.mem), c.base.blocks, Restores);
      procs := procs[p := Proc(Cleaned, {})];
    }

    method SwitchOn(p: nat)
      requires Valid() && p < |procs| && procs[p].phase == Cleaned
      modifies this
      ensures Now() == Do(c, old(Now()), RestoreStatus(p)) && Valid()
    {
      acceleratorEnabled := cacheStatusBeforeRestart;
      procs := procs[p := Proc(Leaving, {})];
    }

    /** accel_restart_leave */
    method RestartLeave(p: nat)
      requires Valid() && p < |procs| && procs[p].phase == Leaving
      modifies this
      ensures Now() == Do(c, old(Now()), Leave(p)) && Valid()
    {
      restartInProgress := false;
      owner := -1;
      procs := procs[p := Proc(Idle, {})];
    }

    /** The second half of a restart */
    method FinishRestart(p: nat)
      requires Valid() && Sane(c) && Inv(c, Now()) && p < |procs| && procs[p].phase == Resetting
      modifies this
      ensures acceleratorEnabled && !restartPending && !restartInProgress && scripts == [] && wastedSharedMemory == 0
      ensures arena == Arena(c.base.mem.(exhausted := false), c.base.blocks)
      ensures (oomRestarts, hashRestarts, manualRestarts) == old((oomRestarts, hashRestarts, manualRestarts))
    {
      ghost var s1 := Now();
      ResetCache(p);
      ghost var s2 := Now();
      SwitchOn(p);
      ghost var s3 := Now();
      RestartLeave(p);
      RestartDone(c, s1, p, s2, s3, Now());
    }
  }
}
