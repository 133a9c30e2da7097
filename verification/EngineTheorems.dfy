/** The properties of whole runs of the engine: safety, conservation, isolation, termination
    and refinement of the sequential loop. */
module EngineTheorems {
  import opened Mutation
  import opened Counting
  import opened EngineModel
  import opened EngineRun
  import opened EngineMemory
  import opened EngineFaults
  import opened EngineDiscovery
  import opened EngineTermination

  // ---- The full invariant ----

  /** A delivered status is one that a test gives on the tree the mutant's write left, and never
      that of a mutant without a file. */
  ghost predicate ResultsOk(c: Config, s: State) {
    forall r :: r in s.collected ==>
      && IsVerdict(c, r.mutant, r.status, r.setting)
      && !Missing(c, r.mutant)
      && (r.setting.Some? ==> Before(r.setting.value, s.mem, r.worker))
  }

  /** The mutant under the cancellation check, and the one discarded by it, is the last one
      handed over. */
  ghost predicate LastOk(s: State) {
    && (s.dispatcher.Checking? ==> s.offered != [] && s.dispatcher.m == s.offered[|s.offered| - 1])
    && (s.discarded != multiset{} ==> s.offered != [] && s.discarded == multiset{s.offered[|s.offered| - 1]})
  }

  ghost predicate Inv(c: Config, s: State) {
    Live(c, s) && ResultsOk(c, s) && LastOk(s)
  }

  lemma InvInit(c: Config)
    ensures Inv(c, Init(c))
  {
    RunInvInit(c);
    MemoryInvInit(c);
    assert Rest(c, AtNode(0, 0)) == Discover(c);
  }

  lemma PoolDetached(c: Config, s: State, w: nat, a: PoolAction)
    requires CanPool(c, s, w, a)
    ensures Detached(s.workers[w]) && Detached(PoolWorker(s, s.workers[w], a))
  {
  }

  lemma MemoryPool(c: Config, s: State, w: nat, a: PoolAction)
    requires MemoryInv(c, s.workers, s.mem) && CanPool(c, s, w, a)
    ensures MemoryInv(c, Pool(c, s, w, a).workers, s.mem) && Pool(c, s, w, a).mem == s.mem
  {
    assert WorkOk(c, s.mem, w, s.workers[w]);
    PoolTouches(c, s, w, a);
    PoolDetached(c, s, w, a);
    DetachedSwap(c, s.workers, s.mem, w, PoolWorker(s, s.workers[w], a));
  }

  lemma MemoryStep(c: Config, s: State, a: Action)
    requires MemoryInv(c, s.workers, s.mem) && Enabled(c, s, a)
    ensures MemoryInv(c, Next(c, s, a).workers, Next(c, s, a).mem)
  {
    if a.OfPool? {
      MemoryPool(c, s, a.worker, a.pool);
    } else if a.OfExecutor? {
      MemoryKept(c, s.workers, s.mem, a.worker, a.op);
    } else {
      MemoryFrame(c, s, a);
      WorkersFrame(c, s, a);
    }
  }

  lemma ResultsDeliver(c: Config, s: State, w: nat)
    requires Inv(c, s) && CanPool(c, s, w, Deliver)
    ensures ResultsOk(c, Pool(c, s, w, Deliver))
  {
    assert WorkOk(c, s.mem, w, s.workers[w]);
  }

  lemma ResultsCarryOver(c: Config, s: State, s': State)
    requires ResultsOk(c, s) && s'.collected == s.collected && s.mem.failed <= s'.mem.failed
    requires forall v :: Damage(s.mem, v).Keys <= Damage(s'.mem, v).Keys
    ensures ResultsOk(c, s')
  {
  }

  lemma ResultsStep(c: Config, s: State, a: Action)
    requires Inv(c, s) && Enabled(c, s, a)
    ensures ResultsOk(c, Next(c, s, a))
  {
    if a.OfPool? && a.pool.Deliver? {
      ResultsDeliver(c, s, a.worker);
      return;
    }
    ResultsFrame(c, s, a);
    if a.OfExecutor? {
      FaultsOnlyGrow(c, s.workers, s.mem, a.worker, a.op);
    } else {
      MemoryFrame(c, s, a);
    }
    ResultsCarryOver(c, s, Next(c, s, a));
  }

  lemma LastWalk(c: Config, s: State, a: WalkerAction)
    requires StopProtocol(c, s) && LastOk(s) && CanWalk(c, s, a)
    ensures LastOk(Walk(c, s, a))
  {
  }

  lemma LastDispatch(c: Config, s: State, a: DispatcherAction)
    requires StopProtocol(c, s) && LastOk(s) && CanDispatch(c, s, a)
    ensures LastOk(Dispatch(c, s, a))
  {
  }

  lemma LastStep(c: Config, s: State, a: Action)
    requires StopProtocol(c, s) && LastOk(s) && Enabled(c, s, a)
    ensures LastOk(Next(c, s, a))
  {
    if a.OfWalker? {
      LastWalk(c, s, a.walk);
    } else if a.OfDispatcher? {
      LastDispatch(c, s, a.dispatch);
    } else {
      WalkerFrame(c, s, a);
      DispatcherFrame(c, s, a);
    }
  }

  lemma InvStep(c: Config, s: State, a: Action)
    requires Inv(c, s) && Enabled(c, s, a)
    ensures Inv(c, Next(c, s, a))
  {
    RunInvStep(c, s, a);
    MemoryStep(c, s, a);
    DiscoveryStep(c, s, a);
    ResultsStep(c, s, a);
    LastStep(c, s, a);
  }

  lemma {:induction false} RunKeepsInv(c: Config, run: seq<State>)
    requires IsRun(c, run)
    ensures Inv(c, run[|run| - 1])
    decreases |run|
  {
    if |run| == 1 {
      InvInit(c);
    } else {
      var before, s, a := LastAction(c, run);
      RunKeepsInv(c, before);
      InvStep(c, s, a);
    }
  }

  lemma ReachableInv(c: Config, s: State)
    requires Reachable(c, s)
    ensures Inv(c, s)
  {
    var run :| IsRun(c, run) && run[|run| - 1] == s;
    RunKeepsInv(c, run);
  }

  // ---- Safety of channels and WaitGroup ----

  /** In every reachable state: the counter is exact; a worker about to send finds the
      channel open; the queue is pushed to and closed only while open; the collector
      returns only after the counter reached zero. */
  lemma ChannelsAreSafe(c: Config, s: State)
    requires Reachable(c, s)
    ensures WaitGroupExact(s) && s.wg >= 0
    ensures forall w :: 0 <= w < |s.workers| && s.workers[w].Busy? ==> s.wg > 0 && !s.outClosed && !s.returned
    ensures s.dispatcher.Counting? ==> s.wg > 0
    ensures s.dispatcher.Appending? || s.dispatcher.ClosingQueue? ==> !s.queueClosed
    ensures s.closer.ClosingOut? ==> !s.outClosed
    ensures s.returned ==> s.wg == 0
  {
    ReachableInv(c, s);
    forall w | 0 <= w < |s.workers| && s.workers[w].Busy?
      ensures s.wg > 0 && !s.outClosed && !s.returned
    {
      SendMeetsOpenChannel(c, s, w);
    }
  }

  // ---- Conservation ----

  /** When the collector has returned nothing is in flight any more. */
  lemma ReturnedIsQuiet(c: Config, s: State)
    requires Reachable(c, s) && s.returned
    ensures s.dispatcher.Exited? && s.queue == []
    ensures forall w :: 0 <= w < |s.workers| ==> !s.workers[w].Busy?
  {
    ReachableInv(c, s);
    ZeroMeansQuiet(s);
  }

  /** At any time the mutants handed over are a prefix of the frozen discovery, and each is
      held, queued, running, collected, dropped or discarded, once. */
  lemma MutantsAreConserved(c: Config, s: State)
    requires Reachable(c, s)
    ensures s.offered <= Discover(c)
    ensures s.walker.StreamClosed? ==> s.offered == Discover(c)
    ensures forall m :: Balanced(s, m)
    ensures |s.discarded| <= 1 && (!s.cancelled ==> s.discarded == multiset{})
  {
    ReachableInv(c, s);
    assert Discover(c)[..|s.offered|] == s.offered;
  }

  /** With nothing held, queued or running the history says where every mutant went. */
  lemma IdleAccounts(s: State, m: Mutant)
    requires Balanced(s, m) && s.queue == [] && !Holds(s.dispatcher, m)
    requires forall w :: 0 <= w < |s.workers| ==> !s.workers[w].Busy?
    ensures multiset(s.offered)[m] == multiset(Originals(s.collected))[m] + s.dropped[m] + s.discarded[m]
  {
    IdleRunNothing(s.workers, m);
  }

  lemma QuietAccounts(s: State)
    requires Conserved(s) && s.queue == [] && s.dispatcher.Exited?
    requires forall w :: 0 <= w < |s.workers| ==> !s.workers[w].Busy?
    ensures multiset(s.offered) == multiset(Originals(s.collected)) + s.dropped + s.discarded
  {
    forall m ensures multiset(s.offered)[m] == multiset(Originals(s.collected))[m] + s.dropped[m] + s.discarded[m] {
      assert Balanced(s, m);
      IdleAccounts(s, m);
    }
    assert multiset(s.offered) == multiset(Originals(s.collected)) + s.dropped + s.discarded;
  }

  lemma QuietDrops(s: State)
    requires DropsExplained(s) && forall w :: 0 <= w < |s.workers| ==> !s.workers[w].Busy?
    ensures s.dropped == multiset(s.mem.failed) + multiset(s.mem.absent) + multiset(s.mem.unread)
  {
    var lost := multiset(s.mem.failed) + multiset(s.mem.absent) + multiset(s.mem.unread);
    forall m ensures s.dropped[m] == lost[m] {
      assert Accounted(s, m);
      IdleRunNothing(s.workers, m);
    }
    assert s.dropped == lost;
  }

  /** executeTests returned: every mutant handed over was collected, dropped by a failed
      Apply, or is the one discarded on a cancel; without a discard discovery was complete. The
      dropped ones are those whose write failed, whose file is not part of the copied tree, or
      whose read failed. */
  lemma ReturnAccountsForAll(c: Config, s: State)
    requires Reachable(c, s) && s.returned
    ensures multiset(s.offered) == multiset(Originals(s.collected)) + s.dropped + s.discarded
    ensures s.discarded == multiset{} ==> s.offered == Discover(c)
    ensures !s.cancelled ==> multiset(Discover(c)) == multiset(Originals(s.collected)) + s.dropped
    ensures s.dropped == multiset(s.mem.failed) + multiset(s.mem.absent) + multiset(s.mem.unread)
    ensures forall m :: m in s.mem.absent ==> Missing(c, m)
    ensures forall r :: r in s.collected ==> !Missing(c, r.mutant)
  {
    MutantsAreConserved(c, s);
    ReturnedIsQuiet(c, s);
    ReachableInv(c, s);
    QuietAccounts(s);
    QuietDrops(s);
  }

  /** pool.Stop has returned. */
  ghost predicate StopReturned(s: State) {
    s.queueClosed && (s.dispatcher.Leaving? || s.dispatcher.Exited?)
  }

  /** When pool.Stop returns every worker has left, and every executor appended before has
      finished unless it is still queued; one is, iff there is no worker and a mutant had been
      handed over before the one discarded. */
  lemma StopWaitsForExecutors(c: Config, s: State)
    requires Reachable(c, s) && StopReturned(s)
    ensures forall w :: 0 <= w < |s.workers| ==> s.workers[w].Gone?
    ensures multiset(s.offered) == multiset(s.queue) + multiset(Originals(s.collected)) + s.dropped + s.discarded
    ensures |s.discarded| == 1
    ensures s.queue == [] <==> c.workers > 0 || |s.offered| == 1
  {
    ReachableInv(c, s);
    var gone := multiset(s.queue) + multiset(Originals(s.collected)) + s.dropped + s.discarded;
    forall m ensures multiset(s.offered)[m] == gone[m] {
      assert Balanced(s, m);
      IdleRunNothing(s.workers, m);
    }
    assert multiset(s.offered) == gone;
    if c.workers > 0 {
      assert s.workers[0].Gone?;
    } else {
      EmptyPoolKeepsAll(c, s);
      assert |multiset(s.offered)| == |s.offered| && |multiset(s.queue)| == |s.queue|;
    }
  }

  lemma EmptyPoolKeepsAll(c: Config, s: State)
    requires Reachable(c, s) && c.workers == 0
    ensures NothingCollected(s) && Originals(s.collected) == []
  {
    var run :| IsRun(c, run) && run[|run| - 1] == s;
    EmptyPoolCollectsNothing(c, run);
  }

  // ---- Shared ASTs and isolation ----

  /** A file whose lock is free has the AST that failed writes have left, which is the parsed
      one if none of its writes failed. */
  lemma FreeFileIsPristine(c: Config, s: State, f: nat)
    requires Reachable(c, s) && f < |c.files| && c.files[f].name !in s.mem.locks
    ensures f < |s.mem.asts| && s.mem.asts[f] == TokensAfter(c, s.mem.failed, f)
    ensures FileClean(s.mem.failed, f) ==> s.mem.asts[f] == Parsed(c, f)
  {
    ReachableInv(c, s);
    forall i | 0 <= i < |c.files[f].nodes| ensures s.mem.asts[f][i] == TokenAfter(c, s.mem.failed, f, i) {
      assert NodeOk(c, s.workers, s.mem, f, i);
    }
    assert s.mem.asts[f] == TokensAfter(c, s.mem.failed, f);
    if FileClean(s.mem.failed, f) {
      CleanFileIsParsed(c, s.mem.failed, f);
    }
  }

  /** Under a held lock only the node of the holder's own mutant may differ from what failed
      writes have left, and a node none of whose writes failed from its parsed token. */
  lemma OnlyHoldersNodeDiffers(c: Config, s: State, f: nat, i: nat)
    requires Reachable(c, s) && HasNode(c, f, i)
    ensures Shapes(c, s.mem)
    ensures s.mem.asts[f][i] != TokenAfter(c, s.mem.failed, f, i) ==>
              && c.files[f].name in s.mem.locks
              && var w := s.mem.locks[c.files[f].name];
                 w < |s.workers| && Alters(s.workers[w], f, i)
                 && s.mem.asts[f][i] == Replacement(s.workers[w].job.kind, TokenAfter(c, s.mem.failed, f, i))
    ensures (forall m :: m in s.mem.failed ==> !(m.file == f && m.node == i)) ==>
              TokenAfter(c, s.mem.failed, f, i) == c.files[f].nodes[i].tok
  {
    ReachableInv(c, s);
    assert NodeOk(c, s.workers, s.mem, f, i);
    if forall m :: m in s.mem.failed ==> !(m.file == f && m.node == i) {
      UnfailedIsParsed(c, s.mem.failed, f, i);
    }
  }

  /** Two workers are never in the critical section of one file name. */
  lemma CriticalSectionsExclude(c: Config, s: State, v: nat, w: nat)
    requires Reachable(c, s) && v < |s.workers| && w < |s.workers|
    requires InCriticalSection(s.workers[v]) && InCriticalSection(s.workers[w])
    requires FileName(c, s.workers[v].job.file) == FileName(c, s.workers[w].job.file)
    ensures v == w
  {
    ReachableInv(c, s);
    OneAltererPerNode(c, s.workers, s.mem.locks, v, w);
  }

  /** The directory of a worker that is testing is the source tree, with the foreign content
      that failures have left there, and with its own mutant as it was printed, whatever all
      other workers are doing; and the source tree with exactly its own mutant applied iff the
      print was that and the foreign content is hidden. */
  lemma TestsAreIsolated(c: Config, s: State, w: nat)
    requires Reachable(c, s) && w < |s.workers| && s.workers[w].Busy? && s.workers[w].phase.Test?
    ensures HasNode(c, s.workers[w].job.file, s.workers[w].job.node) && s.workers[w].setting.Some?
    ensures var job, x := s.workers[w].job, s.workers[w].setting.value;
            && Dir(s.mem, w) == TestedTree(c, job, x)
            && x.damage == Damage(s.mem, w) && x.failed <= s.mem.failed
            && (Dir(s.mem, w) == AloneTree(c, job)
                <==> c.render(job.file, PrintedTokens(c, x.failed, job)) == MutantText(c, job)
                     && DamageIsHidden(c, job, x.damage))
  {
    ReachableInv(c, s);
    assert WorkOk(c, s.mem, w, s.workers[w]) && DirOk(c, s.mem, w, s.workers[w]);
    TestIsAloneIff(c, s.workers[w].job, s.workers[w].setting.value);
  }

  /** A worker that is not between its write and its rollback has the source tree, with the
      foreign content that its failures have left. */
  lemma DirectoryIsPristineOtherwise(c: Config, s: State, w: nat)
    requires Reachable(c, s) && w < |s.workers| && !Mutated(s.workers[w]) && w in s.mem.dirs
    ensures s.mem.dirs[w] == c.source + Damage(s.mem, w)
    ensures w !in s.mem.damage ==> s.mem.dirs[w] == c.source
  {
    ReachableInv(c, s);
    assert DirOk(c, s.mem, w, s.workers[w]);
    assert c.source + map[] == c.source;
  }

  // ---- Dry runs ----

  /** Nothing went wrong with any write so far. */
  ghost predicate NoWriteFault(mem: Memory) {
    mem.failed == [] && mem.damage == map[]
  }

  lemma DryRunStep(c: Config, s: State, a: Action)
    requires Inv(c, s) && c.dryRun && NoWriteFault(s.mem) && Enabled(c, s, a)
    ensures NoWriteFault(Next(c, s, a).mem)
  {
    if !a.OfExecutor? {
      MemoryFrame(c, s, a);
    } else {
      assert WorkOk(c, s.mem, a.worker, s.workers[a.worker]);
    }
  }

  lemma {:induction false} DryRunHasNoFaults(c: Config, run: seq<State>)
    requires IsRun(c, run) && c.dryRun
    ensures NoWriteFault(run[|run| - 1].mem)
    decreases |run|
  {
    if |run| > 1 {
      var before, s, a := LastAction(c, run);
      DryRunHasNoFaults(c, before);
      RunKeepsInv(c, before);
      DryRunStep(c, s, a);
    }
  }

  /** A dry run never locks a file, never changes a token and never writes into a directory;
      it collects every mutant with the status discovery gave it. */
  lemma DryRunTouchesNothing(c: Config, run: seq<State>)
    requires IsRun(c, run) && c.dryRun
    ensures var s := run[|run| - 1];
            && s.mem.locks == map[]
            && (forall f :: 0 <= f < |c.files| ==> f < |s.mem.asts| && s.mem.asts[f] == Parsed(c, f))
            && (forall w :: w in s.mem.dirs ==> s.mem.dirs[w] == c.source)
            && (forall r :: r in s.collected ==> r.status == r.mutant.status)
  {
    var s := run[|run| - 1];
    assert Reachable(c, s);
    ReachableInv(c, s);
    DryRunHasNoFaults(c, run);
    forall w | 0 <= w < |s.workers| ensures !InCriticalSection(s.workers[w]) && !Mutated(s.workers[w]) {
      assert WorkOk(c, s.mem, w, s.workers[w]);
    }
    forall f: nat | 0 <= f < |c.files| ensures f < |s.mem.asts| && s.mem.asts[f] == Parsed(c, f) {
      FreeFileIsPristine(c, s, f);
    }
    forall w | w in s.mem.dirs ensures s.mem.dirs[w] == c.source {
      DirectoryIsPristineOtherwise(c, s, w);
    }
    forall r | r in s.collected ensures r.status == r.mutant.status {
      assert IsVerdict(c, r.mutant, r.status, r.setting);
    }
  }

  // ---- The environment ----

  /** A cancel can come in any state, every read, write and rollback can fail, with anything left
      in the file, and a worker can fail to get a directory. */
  lemma FaultsCanStrike(c: Config, s: State, w: nat, b: Bytes)
    requires Reachable(c, s) && !s.panicked
    ensures !s.cancelled ==> Enabled(c, s, OfEnd(Cancel))
    ensures w < |s.workers| && s.workers[w].Busy? ==>
              && (s.workers[w].phase.Fetch? ==> Enabled(c, s, OfEnd(Panic(w))))
              && (s.workers[w].phase.Read? ==> Enabled(c, s, OfExecutor(w, ReadFault)))
              && (s.workers[w].phase.Write? ==> Enabled(c, s, OfExecutor(w, WriteFault(None)))
                                                && Enabled(c, s, OfExecutor(w, WriteFault(Some(b)))))
              && (s.workers[w].phase.Restore? ==> Enabled(c, s, OfExecutor(w, RollBackFault(b))))
  {
    ReachableInv(c, s);
    if w < |s.workers| && s.workers[w].Busy? && !s.workers[w].phase.Sent? {
      JobResolves(c, s, w);
    }
  }

  // ---- Cancellation ----

  /** Mutants handed over so far, plus the one the dispatcher may still receive. */
  ghost function Intake(s: State): nat {
    |s.offered| + One(s.dispatcher.Receiving? || s.dispatcher.Counting? || s.dispatcher.Appending?)
  }

  lemma CancelStays(c: Config, s: State, a: Action)
    requires s.cancelled && Enabled(c, s, a)
    ensures Next(c, s, a).cancelled
  {
  }

  lemma WalkIntake(c: Config, s: State, a: WalkerAction)
    requires CanWalk(c, s, a)
    ensures Intake(Walk(c, s, a)) <= Intake(s)
  {
  }

  lemma DispatchIntake(c: Config, s: State, a: DispatcherAction)
    requires CanDispatch(c, s, a) && s.cancelled
    ensures Intake(Dispatch(c, s, a)) <= Intake(s)
  {
  }

  lemma IntakeStep(c: Config, s: State, a: Action)
    requires s.cancelled && Enabled(c, s, a)
    ensures Next(c, s, a).cancelled && Intake(Next(c, s, a)) <= Intake(s)
  {
    CancelStays(c, s, a);
    if a.OfWalker? {
      WalkIntake(c, s, a.walk);
    } else if a.OfDispatcher? {
      DispatchIntake(c, s, a.dispatch);
    } else {
      WalkerFrame(c, s, a);
      DispatcherFrame(c, s, a);
    }
  }

  lemma CancelledStep(c: Config, s: State, s': State)
    requires s.cancelled && Step(c, s, s')
    ensures s'.cancelled && Intake(s') <= Intake(s)
  {
    var a :| Enabled(c, s, a) && s' == Next(c, s, a);
    IntakeStep(c, s, a);
  }

  lemma {:induction false} IntakeNeverGrows(c: Config, run: seq<State>, i: nat, j: nat)
    requires IsRun(c, run) && i <= j < |run| && run[i].cancelled
    ensures run[j].cancelled && Intake(run[j]) <= Intake(run[i])
    decreases j - i
  {
    if i < j {
      var k := j - 1;
      IntakeNeverGrows(c, run, i, k);
      assert StepAt(c, run, k);
      CancelledStep(c, run[k], run[k + 1]);
    }
  }

  /** Once cancelled, at most one more mutant leaves the walker. */
  lemma CancelStopsIntake(c: Config, run: seq<State>, i: nat, j: nat)
    requires IsRun(c, run) && i <= j < |run| && run[i].cancelled
    ensures |run[j].offered| <= |run[i].offered| + 1
  {
    IntakeNeverGrows(c, run, i, j);
  }

  // ---- Termination ----

  lemma {:induction false} RunIsShort(c: Config, run: seq<State>)
    requires IsRun(c, run)
    ensures |run| - 1 + Rank(c, run[|run| - 1]) <= Rank(c, Init(c))
    decreases |run|
  {
    if |run| > 1 {
      var before, s, a := LastAction(c, run);
      RunIsShort(c, before);
      RunKeepsInv(c, before);
      StepsDown(c, s, a);
    }
  }

  /** Only the environment can act: a cancel, a panic or an I/O fault. */
  ghost predicate Stuck(c: Config, s: State) {
    forall a :: Enabled(c, s, a) ==> Environmental(a)
  }

  ghost predicate NothingCollected(s: State) {
    s.collected == [] && s.dropped == multiset{} && s.workers == []
  }

  lemma DroppedFrame(c: Config, s: State, a: Action)
    requires Enabled(c, s, a) && !a.OfPool?
    ensures Next(c, s, a).dropped == s.dropped
  {
  }

  lemma EmptyPoolStep(c: Config, s: State, a: Action)
    requires NothingCollected(s) && Enabled(c, s, a)
    ensures NothingCollected(Next(c, s, a))
  {
    if !a.OfPool? {
      ResultsFrame(c, s, a);
      DroppedFrame(c, s, a);
      if !a.OfExecutor? {
        WorkersFrame(c, s, a);
      }
    }
  }

  lemma {:induction false} EmptyPoolCollectsNothing(c: Config, run: seq<State>)
    requires IsRun(c, run) && c.workers == 0
    ensures NothingCollected(run[|run| - 1])
    decreases |run|
  {
    if |run| > 1 {
      var before, s, a := LastAction(c, run);
      EmptyPoolCollectsNothing(c, before);
      EmptyPoolStep(c, s, a);
    }
  }

  /** No run is longer than a bound known before it starts; and a run that cannot go on by itself,
      and has not panicked, has returned from executeTests iff there is a worker or every mutant
      handed over was discarded on a cancel, which is at most one. */
  lemma EveryRunReturns(c: Config, run: seq<State>)
    requires IsRun(c, run) && TestsTerminate(c)
    ensures |run| <= 1 + Rank(c, Init(c))
    ensures var last := run[|run| - 1];
            Stuck(c, last) && !last.panicked ==>
              (last.returned <==> c.workers > 0 || multiset(last.offered) == last.discarded)
  {
    RunIsShort(c, run);
    RunKeepsInv(c, run);
    var last := run[|run| - 1];
    if Stuck(c, last) && !last.panicked {
      assert Reachable(c, last);
      if last.returned && c.workers == 0 {
        EmptyPoolKeepsAll(c, last);
        ReturnAccountsForAll(c, last);
      }
      if multiset(last.offered) == last.discarded {
        NothingTakenIn(last);
      }
      if !last.returned && (c.workers > 0 || last.queue == []) {
        var a := Progress(c, last);
      }
    }
  }

  lemma NothingTakenIn(s: State)
    requires Conserved(s) && multiset(s.offered) == s.discarded
    ensures s.queue == []
  {
    forall m ensures multiset(s.queue)[m] == 0 {
      assert Balanced(s, m);
    }
    assert multiset(s.queue) == multiset{};
    assert |multiset(s.queue)| == |s.queue|;
  }

  /** An empty pool, which a negative worker count yields, never lets an uncancelled run with
      something to test return. */
  lemma EmptyPoolNeverReturns(c: Config, run: seq<State>)
    requires IsRun(c, run) && c.workers == 0 && Discover(c) != []
    requires !run[|run| - 1].cancelled
    ensures !run[|run| - 1].returned
  {
    var last := run[|run| - 1];
    EmptyPoolCollectsNothing(c, run);
    assert Originals(last.collected) == [];
    assert Discover(c)[0] in multiset(Discover(c));
    if last.returned {
      ReturnAccountsForAll(c, last);
    }
  }

  // ---- Refinement of the sequential loop ----

  datatype Verdict = Verdict(mutant: Mutant, status: Status)

  ghost function VerdictOf(r: Result): Verdict {
    Verdict(r.mutant, r.status)
  }

  ghost function Verdicts(rs: seq<Result>): seq<Verdict> {
    seq(|rs|, i requires 0 <= i < |rs| => VerdictOf(rs[i]))
  }

  /** What a loop over ms can report that takes one mutant after the other, applies it alone
      to a pristine tree and runs the tests there. */
  ghost predicate IsSequential(c: Config, ms: seq<Mutant>, vs: seq<Verdict>) {
    && |vs| == |ms|
    && forall i :: 0 <= i < |ms| ==> vs[i].mutant == ms[i] && IsFinal(c, ms[i], vs[i].status)
  }

  /** ms without the mutants whose file is not part of the copied tree. */
  ghost function Present(c: Config, ms: seq<Mutant>): seq<Mutant> {
    Filter(ms, m => !Missing(c, m))
  }

  ghost function Names(vs: seq<Verdict>): seq<Mutant> {
    seq(|vs|, i requires 0 <= i < |vs| => vs[i].mutant)
  }

  lemma NamesWithout(vs: seq<Verdict>, k: nat)
    requires k < |vs|
    ensures Names(Without(vs, k)) == Without(Names(vs), k)
  {
  }

  /** The first mutant has a verdict; without the two, both sides still match. */
  lemma FirstVerdict(vs: seq<Verdict>, ms: seq<Mutant>) returns (k: nat)
    requires multiset(Names(vs)) == multiset(ms) && ms != []
    ensures k < |vs| && vs[k].mutant == ms[0]
    ensures multiset(Names(Without(vs, k))) == multiset(ms[1..])
  {
    assert ms[0] in multiset(Names(vs));
    k :| 0 <= k < |vs| && Names(vs)[k] == ms[0];
    NamesWithout(vs, k);
    MultisetWithout(Names(vs), k);
    assert ms == [ms[0]] + ms[1..];
    assert multiset(ms[1..]) == multiset(ms) - multiset{ms[0]};
    assert multiset(Names(Without(vs, k))) == multiset(Names(vs)) - multiset{ms[0]};
  }

  /** Verdicts in the order of their mutants in ms. */
  lemma {:induction false} Reorder(vs: seq<Verdict>, ms: seq<Mutant>) returns (ordered: seq<Verdict>)
    requires multiset(Names(vs)) == multiset(ms)
    ensures Names(ordered) == ms && multiset(ordered) == multiset(vs)
    decreases |ms|
  {
    assert |multiset(Names(vs))| == |vs| && |multiset(ms)| == |ms|;
    if ms == [] {
      return [];
    }
    var k := FirstVerdict(vs, ms);
    MultisetWithout(vs, k);
    var tail := Reorder(Without(vs, k), ms[1..]);
    ordered := [vs[k]] + tail;
    assert Names(ordered) == [ms[0]] + Names(tail);
  }

  /** Every verdict comes from a test on the tree that its mutant's write left; the failures
      that this write found are a first part of those up to now. */
  lemma VerdictsAreExact(c: Config, s: State, r: Result)
    requires Reachable(c, s) && r in s.collected
    ensures IsVerdict(c, r.mutant, r.status, r.setting)
    ensures r.setting.Some? ==> Before(r.setting.value, s.mem, r.worker)
  {
    ReachableInv(c, s);
  }

  /** Whatever failed elsewhere, or later: a mutant before whose write no write of its file had
      failed, and in whose directory no other file had foreign content, is collected with a
      status it gets alone. */
  lemma FaultsStayLocal(c: Config, s: State, r: Result)
    requires Reachable(c, s) && r in s.collected
    requires r.setting.Some? ==>
               && FileClean(r.setting.value.failed, r.mutant.file)
               && r.setting.value.damage.Keys <= {WorkPath(c, r.mutant)}
    ensures Undisturbed(c, r) && IsFinal(c, r.mutant, r.status)
  {
    VerdictsAreExact(c, s, r);
    if r.setting.Some? {
      LocalIsAlone(c, r.mutant, r.setting.value);
    }
  }

  ghost predicate AllUndisturbed(c: Config, s: State) {
    forall r :: r in s.collected ==> Undisturbed(c, r)
  }

  lemma NoFaultDisturbs(c: Config, s: State)
    requires Reachable(c, s) && NoWriteFault(s.mem)
    ensures AllUndisturbed(c, s)
  {
    forall r | r in s.collected ensures Undisturbed(c, r) {
      VerdictsAreExact(c, s, r);
      if r.setting.Some? {
        LocalIsAlone(c, r.mutant, r.setting.value);
      }
    }
  }

  lemma CollectedAreFinal(c: Config, s: State)
    requires Reachable(c, s) && AllUndisturbed(c, s)
    ensures forall v :: v in Verdicts(s.collected) ==> IsFinal(c, v.mutant, v.status)
  {
    ReachableInv(c, s);
    forall v | v in Verdicts(s.collected) ensures IsFinal(c, v.mutant, v.status) {
      var i :| 0 <= i < |s.collected| && VerdictOf(s.collected[i]) == v;
      UndisturbedIsFinal(c, s.collected[i]);
    }
  }

  /** A history that ends with what was discarded: the rest of it was finished. */
  lemma FinishedPrefix<T>(all: seq<T>, offered: seq<T>, finished: multiset<T>, discarded: multiset<T>) returns (k: nat)
    requires offered <= all && (discarded == multiset{} ==> offered == all)
    requires multiset(offered) == finished + discarded
    requires discarded != multiset{} ==> offered != [] && discarded == multiset{offered[|offered| - 1]}
    ensures k <= |all| && (discarded == multiset{} ==> k == |all|)
    ensures finished == multiset(all[..k])
  {
    if discarded == multiset{} {
      k := |all|;
      assert all[..k] == all;
    } else {
      k := |offered| - 1;
      assert all[..k] == offered[..k];
      assert offered == offered[..k] + [offered[k]];
      assert finished == multiset(offered) - multiset{offered[k]};
    }
  }

  lemma ReturnedHistory(c: Config, s: State)
    requires Reachable(c, s) && s.returned
    ensures s.offered <= Discover(c) && (s.discarded == multiset{} ==> s.offered == Discover(c))
    ensures multiset(s.offered) == multiset(Originals(s.collected)) + s.dropped + s.discarded
    ensures s.discarded != multiset{} ==>
              s.cancelled && s.offered != [] && s.discarded == multiset{s.offered[|s.offered| - 1]}
  {
    assert s.offered <= Discover(c) && (s.discarded != multiset{} ==> s.cancelled) by { MutantsAreConserved(c, s); }
    assert LastOk(s) by { ReachableInv(c, s); }
    ReturnAccountsForAll(c, s);
  }

  /** The mutants of a returned run: all but the one discarded, which was the last. */
  lemma ReturnedPrefix(c: Config, s: State) returns (k: nat)
    requires Reachable(c, s) && s.returned
    ensures k <= |Discover(c)| && (!s.cancelled ==> k == |Discover(c)|)
    ensures multiset(Originals(s.collected)) + s.dropped == multiset(Discover(c)[..k])
  {
    ReturnedHistory(c, s);
    k := FinishedPrefix(Discover(c), s.offered, multiset(Originals(s.collected)) + s.dropped, s.discarded);
  }

  /** ms without the mutants that were dropped. */
  ghost function Kept(ms: seq<Mutant>, dropped: multiset<Mutant>): seq<Mutant> {
    Filter(ms, m => m !in dropped)
  }

  lemma PrefixHoldsEachOnce(c: Config, k: nat)
    requires k <= |Discover(c)|
    ensures forall m :: multiset(Discover(c)[..k])[m] <= 1
  {
    assert Discover(c) == Discover(c)[..k] + Discover(c)[k..];
    forall m ensures multiset(Discover(c)[..k])[m] <= 1 {
      DiscoverIsExact(c, m);
    }
  }

  /** Verdicts that are final, put into the order of their mutants, are those of the loop. */
  lemma OrderedVerdicts(c: Config, s: State, ms: seq<Mutant>) returns (ordered: seq<Verdict>)
    requires Reachable(c, s) && AllUndisturbed(c, s) && multiset(Originals(s.collected)) == multiset(ms)
    ensures IsSequential(c, ms, ordered) && multiset(Verdicts(s.collected)) == multiset(ordered)
  {
    CollectedAreFinal(c, s);
    var vs := Verdicts(s.collected);
    assert Names(vs) == Originals(s.collected);
    ordered := Reorder(vs, ms);
    assert |Names(ordered)| == |ordered|;
    forall i | 0 <= i < |ordered|
      ensures ordered[i].mutant == ms[i] && IsFinal(c, ordered[i].mutant, ordered[i].status)
    {
      assert ordered[i] in multiset(vs) && Names(ordered)[i] == ordered[i].mutant;
    }
  }

  /** Headline: whenever executeTests returns with every test run on its own mutant alone, then
      for every pool size and every schedule the collected verdicts are, up to order, those of
      the sequential loop over the discovered mutants that were not dropped: over all of them
      without a cancel, and over a prefix of them with one. */
  lemma ParallelRefinesSequential(c: Config, s: State) returns (k: nat, ordered: seq<Verdict>)
    requires Reachable(c, s) && s.returned && AllUndisturbed(c, s)
    ensures k <= |Discover(c)| && (!s.cancelled ==> k == |Discover(c)|)
    ensures multiset(Originals(s.collected)) + s.dropped == multiset(Discover(c)[..k])
    ensures IsSequential(c, Kept(Discover(c)[..k], s.dropped), ordered)
    ensures multiset(Verdicts(s.collected)) == multiset(ordered)
  {
    k := ReturnedPrefix(c, s);
    PrefixHoldsEachOnce(c, k);
    FilterOut(Discover(c)[..k], s.dropped);
    ordered := OrderedVerdicts(c, s, Kept(Discover(c)[..k], s.dropped));
  }

  /** The outcome of the tests is determined by directory contents and package. */
  ghost predicate Deterministic(c: Config) {
    forall d: Tree, t: string, e, e' :: e in c.outcomes(d, t) && e' in c.outcomes(d, t) ==> e == e'
  }

  lemma SequentialIsUnique(c: Config, ms: seq<Mutant>, vs: seq<Verdict>, vs': seq<Verdict>)
    requires Deterministic(c) && IsSequential(c, ms, vs) && IsSequential(c, ms, vs')
    ensures vs == vs'
  {
    forall i | 0 <= i < |ms| ensures vs[i] == vs'[i] {
      assert IsFinal(c, ms[i], vs[i].status) && IsFinal(c, ms[i], vs'[i].status);
    }
  }

  /** With deterministic tests two runs that dropped the same mutants agree on their verdicts,
      also between pools of different size. */
  lemma SchedulesAgree(c: Config, c': Config, s: State, s': State)
    requires c' == c.(workers := c'.workers) && Deterministic(c)
    requires Reachable(c, s) && s.returned && !s.cancelled && AllUndisturbed(c, s)
    requires Reachable(c', s') && s'.returned && !s'.cancelled && AllUndisturbed(c', s')
    requires s.dropped == s'.dropped
    ensures multiset(Verdicts(s.collected)) == multiset(Verdicts(s'.collected))
  {
    var k, vs := ParallelRefinesSequential(c, s);
    var k', vs' := ParallelRefinesSequential(c', s');
    assert Discover(c)[..k] == Discover(c) && Discover(c')[..k'] == Discover(c');
    PoolSizeIsInvisible(c, c', 0);
    forall i | 0 <= i < |vs'| ensures IsFinal(c, vs'[i].mutant, vs'[i].status) {
      assert IsFinal(c', vs'[i].mutant, vs'[i].status);
      FinalIgnoresPool(c, c', vs'[i].mutant, vs'[i].status);
    }
    SequentialIsUnique(c, Kept(Discover(c), s.dropped), vs, vs');
  }

  lemma FinalIgnoresPool(c: Config, c': Config, m: Mutant, st: Status)
    requires c' == c.(workers := c'.workers)
    ensures IsFinal(c, m, st) <==> IsFinal(c', m, st)
  {
    if HasNode(c, m.file, m.node) {
      assert MutatedTokens(c, m) == MutatedTokens(c', m);
    }
  }

  lemma {:induction false} KindsIgnorePool(c: Config, c': Config, f: nat, i: nat, ks: seq<Kind>)
    requires c' == c.(workers := c'.workers) && HasNode(c, f, i)
    ensures KindMutants(c, f, i, ks) == KindMutants(c', f, i, ks)
  {
    if ks != [] {
      KindsIgnorePool(c, c', f, i, ks[1..]);
    }
  }

  lemma {:induction false} FileIgnoresPool(c: Config, c': Config, f: nat, i: nat)
    requires c' == c.(workers := c'.workers) && f < |c.files|
    ensures FileMutants(c, f, i) == FileMutants(c', f, i)
    decreases |c.files[f].nodes| - i
  {
    if i < |c.files[f].nodes| {
      KindsIgnorePool(c, c', f, i, KindsOf(c.files[f].nodes[i].tok));
      FileIgnoresPool(c, c', f, i + 1);
    }
  }

  lemma {:induction false} PoolSizeIsInvisible(c: Config, c': Config, f: nat)
    requires c' == c.(workers := c'.workers)
    ensures MutantsFrom(c, f) == MutantsFrom(c', f)
    decreases |c.files| - f
  {
    if f < |c.files| {
      FileIgnoresPool(c, c', f, 0);
      PoolSizeIsInvisible(c, c', f + 1);
    }
  }
}
