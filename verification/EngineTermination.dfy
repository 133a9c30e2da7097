/** Every step uses up rank, so every run is finite; and until the collector has returned
    some step that needs no help from the environment is enabled. */
module EngineTermination {
  import opened Mutation
  import opened EngineModel
  import opened EngineRun
  import opened EngineMemory
  import opened EngineDiscovery

  // ---- Rank ----

  /** A mutant on the walker's side outweighs everything that can still happen to it. */
  const MUTANT_RANK: nat := 20

  ghost function WalkFrom(c: Config, f: nat, i: nat): nat
    decreases |c.files| - f, if f < |c.files| then |c.files[f].nodes| - i else 0
  {
    if f >= |c.files| then 1
    else if i >= |c.files[f].nodes| then 1 + WalkFrom(c, f + 1, 0)
    else 2 + 2 * MUTANT_RANK + WalkFrom(c, f, i + 1)
  }

  ghost function WalkerRank(c: Config, w: Walker): nat {
    match w
    case AtNode(f, i) => WalkFrom(c, f, i)
    case Offering(f, i, ks) => 1 + MUTANT_RANK * |ks| + WalkFrom(c, f, i + 1)
    case StreamClosed => 0
  }

  ghost function DispatcherRank(d: Dispatcher, n: nat): nat {
    match d
    case Receiving => n + 6
    case Checking(_) => n + 25
    case Counting(_) => n + 24
    case Appending(_) => n + 23
    case ClosingQueue => n + 5
    case Joining(spawned) => 3 + if spawned <= n then n - spawned else 0
    case Leaving => 2
    case Exited => 1
  }

  ghost function PhaseRank(p: Phase): nat {
    match p
    case Fetch => 13
    case Decide => 12
    case Acquire => 11
    case Read => 10
    case SetTok(_) => 9
    case Write(_, _) => 8
    case ResetTok(_, _) => 7
    case Release(_) => 6
    case Test(_) => 5
    case Restore(_, _) => 4
    case Send(_) => 3
    case Abort => 2
    case Failed => 1
    case Sent => 1
  }

  ghost function WorkerRank(w: Worker): nat {
    match w
    case Idle => 2
    case Busy(_, p, _) => 2 + PhaseRank(p)
    case Quitting => 1
    case Gone => 0
  }

  ghost function PoolRank(ws: seq<Worker>): nat {
    if ws == [] then 0 else WorkerRank(ws[0]) + PoolRank(ws[1..])
  }

  lemma {:induction false} PoolRankUpdate(ws: seq<Worker>, w: nat, x: Worker)
    requires w < |ws|
    ensures PoolRank(ws[w := x]) + WorkerRank(ws[w]) == PoolRank(ws) + WorkerRank(x)
  {
    if w > 0 {
      PoolRankUpdate(ws[1..], w - 1, x);
      assert ws[w := x][1..] == ws[1..][w - 1 := x];
    } else {
      assert ws[w := x][1..] == ws[1..];
    }
  }

  ghost function CloserRank(s: State): nat {
    (match s.closer case Waiting => 2 case ClosingOut => 1 case Finished => 0)
    + One(!s.returned) + One(!s.cancelled) + One(!s.panicked)
  }

  ghost function Rank(c: Config, s: State): nat {
    WalkerRank(c, s.walker) + DispatcherRank(s.dispatcher, |s.workers|) + 15 * |s.queue| + PoolRank(s.workers)
    + CloserRank(s)
  }

  lemma WalkerStepsDown(c: Config, s: State, a: WalkerAction)
    requires CanWalk(c, s, a)
    ensures Rank(c, Walk(c, s, a)) < Rank(c, s)
  {
    match a
    case ReadNode =>
      var ks := KindsOf(s.mem.asts[s.walker.file][s.walker.node]);
      assert MUTANT_RANK * |ks| <= 2 * MUTANT_RANK;
    case SkipKind => assert |s.walker.kinds| == |s.walker.kinds[1..]| + 1;
    case HandOver => assert |s.walker.kinds| == |s.walker.kinds[1..]| + 1;
    case _ =>
  }

  lemma DispatcherStepsDown(c: Config, s: State, a: DispatcherAction)
    requires CanDispatch(c, s, a)
    ensures Rank(c, Dispatch(c, s, a)) < Rank(c, s)
  {
  }

  lemma SwapStepsDown(c: Config, s: State, s': State, w: nat)
    requires w < |s.workers| && |s'.workers| == |s.workers| && s'.workers == s.workers[w := s'.workers[w]]
    requires s'.walker == s.walker && s'.dispatcher == s.dispatcher && CloserRank(s') == CloserRank(s)
    requires WorkerRank(s'.workers[w]) + 15 * |s'.queue| < WorkerRank(s.workers[w]) + 15 * |s.queue|
    ensures Rank(c, s') < Rank(c, s)
  {
    PoolRankUpdate(s.workers, w, s'.workers[w]);
  }

  lemma PoolStepsDown(c: Config, s: State, w: nat, a: PoolAction)
    requires CanPool(c, s, w, a)
    ensures Rank(c, Pool(c, s, w, a)) < Rank(c, s)
  {
    if a.Take? {
      assert |s.queue| == |s.queue[1..]| + 1;
    }
    SwapStepsDown(c, s, Pool(c, s, w, a), w);
  }

  lemma PhaseStepsDown(c: Config, mem: Memory, w: nat, job: Mutant, phase: Phase, op: Op)
    requires CanExec(c, mem, w, job, phase, op)
    ensures PhaseRank(ExecPhase(c, mem, w, job, phase, op)) < PhaseRank(phase)
  {
  }

  lemma ExecutorStepsDown(c: Config, s: State, w: nat, op: Op)
    requires CanWork(c, s, w, op)
    ensures Rank(c, Work(c, s, w, op)) < Rank(c, s)
  {
    PhaseStepsDown(c, s.mem, w, s.workers[w].job, s.workers[w].phase, op);
    SwapStepsDown(c, s, Work(c, s, w, op), w);
  }

  lemma EndStepsDown(c: Config, s: State, a: EndAction)
    requires CanEnd(c, s, a) && CloseProtocol(s) && !s.panicked
    ensures Rank(c, End(c, s, a)) < Rank(c, s)
  {
  }

  /** Every step lowers the rank, also cancels, panics and faults. */
  lemma StepsDown(c: Config, s: State, a: Action)
    requires Enabled(c, s, a) && CloseProtocol(s)
    ensures Rank(c, Next(c, s, a)) < Rank(c, s)
  {
    match a
    case OfWalker(x) => WalkerStepsDown(c, s, x);
    case OfDispatcher(x) => DispatcherStepsDown(c, s, x);
    case OfPool(w, x) => PoolStepsDown(c, s, w, x);
    case OfExecutor(w, op) => ExecutorStepsDown(c, s, w, op);
    case OfEnd(x) => EndStepsDown(c, s, x);
  }

  // ---- Progress ----

  /** Tests always come back. */
  ghost predicate TestsTerminate(c: Config) {
    forall d: Tree, t: string :: c.outcomes(d, t) != {}
  }

  /** The next operation of an executor that is not waiting for a lock or for the collector. */
  ghost function OwnOp(c: Config, s: State, w: nat): (op: Op)
    requires TestsTerminate(c) && w < |s.workers| && s.workers[w].Busy? && Resolves(c, s.mem, s.workers[w].job)
    requires var p := s.workers[w].phase; !p.Acquire? && !p.Send? && !p.Failed? && !p.Sent?
    ensures CanWork(c, s, w, op) && !Environmental(OfExecutor(w, op))
  {
    match s.workers[w].phase
    case Fetch => Get
    case Decide => Branch
    case Read => ReadFile
    case SetTok(_) => SetToken
    case Write(_, _) => WriteFile
    case ResetTok(_, _) => ResetToken
    case Release(_) => Unlock
    case Abort => Unlock
    case Test(_) =>
      var end :| end in c.outcomes(Dir(s.mem, w), TestTarget(c, s.workers[w].job)); EndTest(end)
    case Restore(_, _) => RollBack
  }

  ghost predicate Live(c: Config, s: State) {
    && RunInv(c, s)
    && MemoryInv(c, s.workers, s.mem)
    && DiscoveryInv(c, s)
  }

  lemma JobResolves(c: Config, s: State, w: nat)
    requires Live(c, s) && w < |s.workers| && s.workers[w].Busy? && !s.workers[w].phase.Sent?
    ensures Resolves(c, s.mem, s.workers[w].job)
  {
    JobWasOffered(s, w);
  }

  /** A busy worker can move, or the holder of the lock it waits for can. */
  lemma BusyProgress(c: Config, s: State, w: nat) returns (a: Action)
    requires TestsTerminate(c) && Live(c, s) && w < |s.workers| && s.workers[w].Busy? && !s.panicked
    ensures Enabled(c, s, a) && !Environmental(a)
  {
    SendMeetsOpenChannel(c, s, w);
    var phase := s.workers[w].phase;
    if phase.Sent? || phase.Failed? {
      return OfPool(w, Done);
    }
    JobResolves(c, s, w);
    if phase.Send? {
      return OfPool(w, Deliver);
    }
    var name := FileName(c, s.workers[w].job.file);
    if !phase.Acquire? {
      return OfExecutor(w, OwnOp(c, s, w));
    }
    if name !in s.mem.locks {
      return OfExecutor(w, Lock);
    }
    var holder := s.mem.locks[name];
    JobResolves(c, s, holder);
    a := OfExecutor(holder, OwnOp(c, s, holder));
  }

  lemma WalkerProgress(c: Config, s: State) returns (a: Action)
    requires Live(c, s) && s.dispatcher.Receiving? && !s.panicked
    ensures Enabled(c, s, a) && !Environmental(a)
  {
    match s.walker
    case StreamClosed => a := OfDispatcher(EndOfStream);
    case AtNode(f, i) =>
      a := OfWalker(if f >= |c.files| then CloseStream
                    else if i >= |c.files[f].nodes| then NextFile else ReadNode);
    case Offering(f, i, ks) =>
      a := OfWalker(if ks == [] then NextNode else if ks[0] in c.enabled then HandOver else SkipKind);
  }

  lemma JoiningProgress(c: Config, s: State) returns (a: Action)
    requires Live(c, s) && s.dispatcher.Joining? && !s.panicked && s.queue == []
    requires forall w :: 0 <= w < |s.workers| ==> !s.workers[w].Busy?
    ensures Enabled(c, s, a) && !Environmental(a)
  {
    if s.dispatcher.spawned < |s.workers| {
      return OfDispatcher(SpawnStop);
    }
    if w :| 0 <= w < |s.workers| && !s.workers[w].Gone? {
      return OfPool(w, if s.workers[w].Idle? then SeeClosed else Quit);
    }
    a := OfDispatcher(StopReturns);
  }

  lemma DispatcherProgress(c: Config, s: State) returns (a: Action)
    requires Live(c, s) && !s.dispatcher.Exited? && !s.panicked && s.queue == []
    requires forall w :: 0 <= w < |s.workers| ==> !s.workers[w].Busy?
    ensures Enabled(c, s, a) && !Environmental(a)
  {
    match s.dispatcher
    case Receiving => a := WalkerProgress(c, s);
    case Checking(_) => a := OfDispatcher(CheckDone);
    case Counting(_) => a := OfDispatcher(Count);
    case Appending(_) => a := OfDispatcher(Append);
    case ClosingQueue => a := OfDispatcher(CloseQueue);
    case Joining(_) => a := JoiningProgress(c, s);
    case Leaving => a := OfDispatcher(DispatcherDone);
  }

  /** Until the collector returns some step is enabled that neither the environment nor a
      fault has to take: with at least one worker, or with nothing queued. */
  lemma Progress(c: Config, s: State) returns (a: Action)
    requires TestsTerminate(c) && Live(c, s) && !s.panicked && !s.returned
    requires c.workers > 0 || s.queue == []
    ensures Enabled(c, s, a) && !Environmental(a)
  {
    if w :| 0 <= w < |s.workers| && s.workers[w].Busy? {
      a := BusyProgress(c, s, w);
    } else if s.queue != [] {
      a := OfPool(0, Take);
    } else if !s.dispatcher.Exited? {
      a := DispatcherProgress(c, s);
    } else {
      NobodyBusy(s.workers);
      a := OfEnd(match s.closer case Waiting => SeeZero case ClosingOut => CloseOut case Finished => Return);
    }
  }
}
