/** Why EngineModel may take a file lock, and get a work directory, in one step: each step of the
    table of locks, and of the directory dealer, is on EngineModel's memory either nothing or
    that one step. Thread, caller and worker of one number are the same goroutine. */
module EngineAtomicity {
  import opened Mutation
  import opened EngineModel
  import LockTable
  import WorkdirRuns
  import WorkerPool

  // ---- Locks ----

  /** The operation of the executor that a step of the lock table completes. */
  ghost function LockMove(s: LockTable.State, t: nat, a: LockTable.Action): Option<Op>
    requires LockTable.Enabled(s, t, a)
  {
    if a.LockMutex? && s.threads[t].locked == None then Some(Lock)
    else if a.UnlockMutex? then Some(Unlock)
    else None
  }

  /** The executor is at the call that thread t is in. */
  ghost predicate AtLockCall(c: Config, mem: Memory, s: LockTable.State, t: nat, op: Op, job: Mutant, phase: Phase)
    requires t < |s.threads| && !s.threads[t].Idle?
  {
    && Resolves(c, mem, job) && FileName(c, job.file) == s.threads[t].name
    && (if op.Lock? then phase.Acquire? else phase.Release? || phase.Abort?)
  }

  /** While the table's locked names are the engine's locks: a step of the table that completes
      Lock or Unlock is that operation of the engine, which is then enabled, and every other
      step leaves the engine's locks alone. */
  lemma LockTableIsOneStep(c: Config, mem: Memory, s: LockTable.State, t: nat, a: LockTable.Action, job: Mutant,
                           phase: Phase)
    requires LockTable.Inv(s) && LockTable.Enabled(s, t, a) && LockTable.LockedNames(s) == mem.locks
    requires var op := LockMove(s, t, a); op.Some? ==> AtLockCall(c, mem, s, t, op.value, job, phase)
    ensures var op, next := LockMove(s, t, a), LockTable.LockedNames(LockTable.Next(s, t, a));
            if op == None then next == mem.locks
            else CanExec(c, mem, t, job, phase, op.value)
                 && next == ExecMemory(c, mem, t, job, phase, op.value).locks
  {
    LockTable.TableRefinesOneLockPerName(s, t, a);
  }

  // ---- Work directories ----

  /** The workers that have a directory. */
  ghost function Owners(pool: string, s: WorkdirRuns.State): set<nat> {
    set w | 0 <= w < |s.callers| && WorkerPool.WorkerName(pool, w) in s.cache
  }

  /** A call of Get returns a directory. */
  ghost predicate GetReturns(s: WorkdirRuns.State, t: nat, a: WorkdirRuns.Action)
    requires WorkdirRuns.Enabled(s, t, a)
  {
    a.Store? || (a.Look? && s.callers[t].idf in s.cache)
  }

  lemma OnlyOwnEntry(pool: string, s: WorkdirRuns.State, t: nat, a: WorkdirRuns.Action)
    requires WorkdirRuns.Enabled(s, t, a) && !a.Clean? && WorkdirRuns.AsksForItsOwn(pool, s)
    ensures Owners(pool, WorkdirRuns.Next(s, t, a))
         == if GetReturns(s, t, a) then Owners(pool, s) + {t} else Owners(pool, s)
  {
    var s' := WorkdirRuns.Next(s, t, a);
    forall w | 0 <= w < |s.callers| && w != t
      ensures w in Owners(pool, s') <==> w in Owners(pool, s)
    {
      if WorkerPool.WorkerName(pool, w) == WorkerPool.WorkerName(pool, t) {
        WorkerPool.WorkerNamesDiffer(pool, w, t);
      }
    }
    if GetReturns(s, t, a) {
      assert t in Owners(pool, s');
    }
  }

  /** While the workers with a directory are the engine's: the step in which a worker's Get returns
      is the engine's Get, and every other step of the dealer leaves the engine's directories
      alone. No step gives a worker a second directory. */
  lemma DealerIsOneStep(c: Config, mem: Memory, pool: string, n: nat, existing: set<Path>,
                        run: seq<WorkdirRuns.State>, k: nat, t: nat, a: WorkdirRuns.Action, job: Mutant)
    requires WorkdirRuns.IsRun(n, existing, run)
    requires forall i :: 0 <= i < |run| ==> WorkdirRuns.AsksForItsOwn(pool, run[i])
    requires k < |run| && WorkdirRuns.Enabled(run[k], t, a) && !a.Clean? && Resolves(c, mem, job)
    requires mem.dirs.Keys == Owners(pool, run[k])
    ensures var next := Owners(pool, WorkdirRuns.Next(run[k], t, a));
            if GetReturns(run[k], t, a)
            then CanExec(c, mem, t, job, Fetch, Get) && next == ExecMemory(c, mem, t, job, Fetch, Get).dirs.Keys
            else next == mem.dirs.Keys
    ensures a.Store? ==> t !in mem.dirs
  {
    OnlyOwnEntry(pool, run[k], t, a);
    forall i | 0 <= i < |run| ensures WorkdirRuns.Exclusive(run[i]) {
      WorkdirRuns.WorkersAreExclusive(pool, run[i]);
    }
    WorkdirRuns.ExclusiveMissesStay(n, existing, run, k);
  }
}
