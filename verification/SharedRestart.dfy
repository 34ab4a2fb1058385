/** A restart as a whole, on everything that lies in shared memory: the cache, the table of scripts, the include paths
    and the interned strings. */
module SharedRestart {
  import opened Options
  import AccelHash
  import InternedStrings
  import Restart
  import RestartSteps
  import SharedAlloc

  ghost predicate NothingFound(t: AccelHash.Table, h: AccelHash.Key -> nat) {
    && AccelHash.Valid(t, h) && t.num == 0
    && forall k: AccelHash.Key {:trigger AccelHash.FindEntry(t, h, k)} :: AccelHash.FindEntry(t, h, k) == -1
  }

  /** Of the paths in the table was, the first one is found in t, under the letter 'A', and nothing else. */
  ghost predicate OnlyFirst(was: AccelHash.Table, t: AccelHash.Table, h: AccelHash.Key -> nat) {
    && AccelHash.Valid(t, h)
    && forall k: AccelHash.Key {:trigger AccelHash.Find(t, h, k)} :: AccelHash.Find(t, h, k) ==
         if 0 < was.num <= |was.entries| && k == was.entries[0].key then Some(AccelHash.LETTER_A) else None
  }

  class SharedGlobals {
    const accelerator: RestartSteps.Accelerator
    const hash: AccelHash.SharedHash
    const includePaths: AccelHash.SharedHash
    const interner: InternedStrings.Interner
    const internedStringsBuffer: bool

    constructor (accelerator: RestartSteps.Accelerator, hash: AccelHash.SharedHash, includePaths: AccelHash.SharedHash,
        interner: InternedStrings.Interner, internedStringsBuffer: bool)
      ensures this.accelerator == accelerator && this.hash == hash && this.includePaths == includePaths
      ensures this.interner == interner && this.internedStringsBuffer == internedStringsBuffer
    {
      this.accelerator, this.hash, this.includePaths := accelerator, hash, includePaths;
      this.interner, this.internedStringsBuffer := interner, internedStringsBuffer;
    }

    /** The tables are sound and share no memory. */
    ghost predicate Valid()
      reads this, accelerator, hash, hash.hashTable, hash.entries, includePaths, includePaths.hashTable,
        includePaths.entries, interner, interner.buckets
    {
      && accelerator.Valid() && hash.Sound() && includePaths.Sound() && hash != includePaths
      && hash.hashTable != includePaths.hashTable
      && AccelHash.Lettered(includePaths.View(), includePaths.hash)
    }

    /** Since the snapshot first was taken, strings have been interned. */
    ghost predicate GrownFrom(first: InternedStrings.Strings, reqs: seq<InternedStrings.Request>)
      reads interner, interner.buckets
    {
      && InternedStrings.Valid(interner.region, first) && interner.saved == InternedStrings.Save(first)
      && interner.View() == InternedStrings.InternAll(interner.region, first, reqs)
    }

    /** Between accel_restart_enter and accel_restart_leave: the tables. */
    method ResetTables(ghost first: InternedStrings.Strings, ghost reqs: seq<InternedStrings.Request>)
      requires Valid() && GrownFrom(first, reqs)
      modifies hash, hash.hashTable, includePaths, includePaths.hashTable, interner, interner.buckets
      ensures NothingFound(hash.View(), hash.hash)
      ensures OnlyFirst(old(includePaths.View()), includePaths.View(), includePaths.hash)
      ensures interner.View() == if internedStringsBuffer then first else old(interner.View())
    {
      hash.Clean();
      KeepFirstPath();
      if internedStringsBuffer {
        RestoreStrings(first, reqs);
      }
    }

    method KeepFirstPath()
      requires includePaths.Sound() && AccelHash.Lettered(includePaths.View(), includePaths.hash)
      modifies includePaths, includePaths.hashTable
      ensures includePaths.hashTable == old(includePaths.hashTable) && includePaths.entries == old(includePaths.entries)
      ensures OnlyFirst(old(includePaths.View()), includePaths.View(), includePaths.hash)
    {
      CutPaths(includePaths.View(), includePaths.hash);
      includePaths.KeepFirst();
    }

    method RestoreStrings(ghost first: InternedStrings.Strings, ghost reqs: seq<InternedStrings.Request>)
      requires GrownFrom(first, reqs)
      modifies interner, interner.buckets
      ensures interner.View() == first
    {
      InternedStrings.RollBackExact(interner.region, first, reqs);
      interner.RestoreState();
    }

    static lemma CutPaths(paths: AccelHash.Table, h: AccelHash.Key -> nat)
      requires AccelHash.Lettered(paths, h)
      ensures OnlyFirst(paths, AccelHash.Cut(paths, h), h)
    {
      if paths.num > 0 {
        AccelHash.CutFindsFirst(paths, h);
      } else {
        forall k: AccelHash.Key ensures AccelHash.Find(paths, h, k) == None {
          AccelHash.SlotIs(paths, h, k);
        }
      }
    }

    method Begin(p: nat)
      requires accelerator.Valid()
      requires Restart.Sane(accelerator.c) && Restart.Inv(accelerator.c, accelerator.Now())
      requires p < |accelerator.procs| && accelerator.procs[p].phase == Restart.Idle
      requires accelerator.restartPending && !accelerator.restartInProgress && Restart.Inactive(accelerator.Now(), p)
      modifies accelerator
      ensures accelerator.Valid() && Restart.Inv(accelerator.c, accelerator.Now())
      ensures p < |accelerator.procs| && accelerator.procs[p].phase == Restart.Resetting
      ensures (accelerator.oomRestarts, accelerator.hashRestarts, accelerator.manualRestarts) ==
        old(Restart.Counted(accelerator.Now()))
    {
      ghost var s := accelerator.Now();
      Restart.ActivateKeeps(accelerator.c, s, p);
      Restart.Entered(accelerator.c, s, p, Restart.Do(accelerator.c, s, Restart.Activate(p)));
      var restarting := accelerator.Activate(p);
    }

    /** A request begins when nobody else is in the way and a restart is due: afterwards the accelerator is on, the
        arena is that of startup, no script is found, the first include path is found and no other, and the interned
        strings are those of the snapshot. */
    method WholeRestart(p: nat, ghost first: InternedStrings.Strings, ghost reqs: seq<InternedStrings.Request>)
      requires Valid() && GrownFrom(first, reqs)
      requires Restart.Sane(accelerator.c) && Restart.Inv(accelerator.c, accelerator.Now())
      requires p < |accelerator.procs| && accelerator.procs[p].phase == Restart.Idle
      requires accelerator.restartPending && !accelerator.restartInProgress && Restart.Inactive(accelerator.Now(), p)
      modifies accelerator, hash, hash.hashTable, includePaths, includePaths.hashTable, interner, interner.buckets
      ensures accelerator.acceleratorEnabled && !accelerator.restartPending && !accelerator.restartInProgress
      ensures accelerator.scripts == [] && accelerator.wastedSharedMemory == 0
      ensures var base := accelerator.c.base;
        accelerator.arena == SharedAlloc.Arena(base.mem.(exhausted := false), base.blocks)
      ensures (accelerator.oomRestarts, accelerator.hashRestarts, accelerator.manualRestarts) ==
        old(Restart.Counted(accelerator.Now()))
      ensures NothingFound(hash.View(), hash.hash)
      ensures OnlyFirst(old(includePaths.View()), includePaths.View(), includePaths.hash)
      ensures interner.View() == if internedStringsBuffer then first else old(interner.View())
    {
      Begin(p);
      ResetTables(first, reqs);
      accelerator.FinishRestart(p);
    }
  }
}
