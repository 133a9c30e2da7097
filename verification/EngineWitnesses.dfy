/** Runs that show where the guarantees end: pool.Stop with an empty pool, and tests that see
    more, or less, than their own mutant after a failed write or a failed rollback. */
module EngineWitnesses {
  import opened Mutation
  import opened EngineModel
  import opened EngineMemory
  import opened EngineDiscovery
  import opened EngineRun
  import opened EngineTermination
  import opened EngineTheorems
  import opened EngineFaultFree
  import opened EngineMeaning
  import opened EngineFaults

  // ---- Building runs ----

  lemma Extend(c: Config, run: seq<State>, a: Action) returns (longer: seq<State>)
    requires IsRun(c, run) && Enabled(c, run[|run| - 1], a)
    ensures IsRun(c, longer) && longer == run + [Next(c, run[|run| - 1], a)]
  {
    longer := run + [Next(c, run[|run| - 1], a)];
    forall i: nat | i + 1 < |longer| ensures StepAt(c, longer, i) {
      if i + 1 < |run| {
        assert StepAt(c, run, i);
      }
    }
  }

  lemma Reaches(c: Config, s: State, a: Action) returns (t: State)
    requires Reachable(c, s) && Enabled(c, s, a)
    ensures t == Next(c, s, a) && Reachable(c, t)
  {
    var run :| IsRun(c, run) && run[|run| - 1] == s;
    var longer := Extend(c, run, a);
    t := longer[|longer| - 1];
  }

  lemma InitIsReachable(c: Config)
    ensures Reachable(c, Init(c))
  {
    var run := [Init(c)];
    assert IsRun(c, run) && run[|run| - 1] == Init(c);
  }

  /** The walker's next step towards its next mutant. */
  ghost function TowardsOffer(c: Config, s: State): (a: WalkerAction)
    requires WalkerOk(c, s.walker) && Shapes(c, s.mem) && s.dispatcher.Receiving? && Rest(c, s.walker) != []
    ensures CanWalk(c, s, a)
  {
    match s.walker
    case AtNode(f, i) => if i >= |c.files[f].nodes| then NextFile else ReadNode
    case Offering(f, i, ks) => if ks == [] then NextNode else if ks[0] in c.enabled then HandOver else SkipKind
  }

  lemma TowardsOfferStepsDown(c: Config, s: State, a: WalkerAction)
    requires CanWalk(c, s, a) && !a.HandOver?
    ensures Walk(c, s, a) == s.(walker := Walk(c, s, a).walker)
    ensures WalkerRank(c, Walk(c, s, a).walker) < WalkerRank(c, s.walker)
  {
    WalkerStepsDown(c, s, a);
  }

  lemma MutantsAreLeft(c: Config, s: State)
    requires Reachable(c, s) && |s.offered| < |Discover(c)|
    ensures WalkerOk(c, s.walker) && Shapes(c, s.mem) && Rest(c, s.walker) != []
    ensures Rest(c, s.walker)[0] == Discover(c)[|s.offered|]
  {
    ReachableInv(c, s);
    assert s.offered + Rest(c, s.walker) == Discover(c);
  }

  /** While mutants are left and the dispatcher receives, the next one can be handed over,
      and nothing but the walker need move before. */
  lemma {:induction false} HandNext(c: Config, s: State) returns (t: State)
    requires Reachable(c, s) && !s.panicked && s.dispatcher.Receiving? && |s.offered| < |Discover(c)|
    ensures Reachable(c, t)
    ensures var m := Discover(c)[|s.offered|];
            t == s.(walker := t.walker, dispatcher := Checking(m), offered := s.offered + [m])
    decreases WalkerRank(c, s.walker)
  {
    MutantsAreLeft(c, s);
    var a := TowardsOffer(c, s);
    t := Reaches(c, s, OfWalker(a));
    if a.HandOver? {
      OfferIsFirstOfRest(c, s.walker.file, s.walker.node, s.walker.kinds);
    } else {
      TowardsOfferStepsDown(c, s, a);
      t := HandNext(c, t);
    }
  }

  /** An uncancelled dispatcher counts its mutant and puts it into the empty queue. */
  lemma Enqueue(c: Config, s: State) returns (t: State)
    requires Reachable(c, s) && !s.panicked && !s.cancelled && s.dispatcher.Checking? && s.queue == []
    ensures Reachable(c, t)
    ensures t == s.(dispatcher := Receiving, queue := [s.dispatcher.m], wg := s.wg + 1)
  {
    t := Reaches(c, s, OfDispatcher(CheckDone));
    t := Reaches(c, t, OfDispatcher(Count));
    t := Reaches(c, t, OfDispatcher(Append));
  }

  // ---- Runs to the end ----

  lemma QuietStepsStay(c: Config, s: State, a: Action)
    requires Enabled(c, s, a) && !Environmental(a)
    ensures !IsFault(a)
    ensures Next(c, s, a).cancelled == s.cancelled && Next(c, s, a).panicked == s.panicked
  {
    StepTouches(c, s, a);
  }

  lemma ExtendFaultFree(c: Config, run: seq<State>, a: Action) returns (longer: seq<State>)
    requires IsFaultFreeRun(c, run) && Enabled(c, run[|run| - 1], a) && !IsFault(a)
    ensures IsFaultFreeRun(c, longer) && longer == run + [Next(c, run[|run| - 1], a)]
  {
    longer := run + [Next(c, run[|run| - 1], a)];
    forall i: nat | i + 1 < |longer| ensures FaultFreeAt(c, longer, i) {
      if i + 1 < |run| {
        assert FaultFreeAt(c, run, i);
      }
    }
  }

  /** Every fault-free run can go on, without the environment, until it is stuck. */
  lemma {:induction false} RunOut(c: Config, run: seq<State>) returns (longer: seq<State>)
    requires IsFaultFreeRun(c, run)
    ensures IsFaultFreeRun(c, longer) && Stuck(c, longer[|longer| - 1])
    ensures longer[|longer| - 1].cancelled == run[|run| - 1].cancelled
    ensures longer[|longer| - 1].panicked == run[|run| - 1].panicked
    decreases Rank(c, run[|run| - 1])
  {
    var s := run[|run| - 1];
    if Stuck(c, s) {
      return run;
    }
    var a :| Enabled(c, s, a) && !Environmental(a);
    QuietStepsStay(c, s, a);
    assert CloseProtocol(s) by { FaultFreeRunsAreClean(c, run, |run| - 1); }
    StepsDown(c, s, a);
    longer := ExtendFaultFree(c, run, a);
    longer := RunOut(c, longer);
  }

  /** A run with no cancel, no panic and no fault that only the environment could continue. */
  lemma QuietRun(c: Config) returns (run: seq<State>)
    ensures IsFaultFreeRun(c, run) && Stuck(c, run[|run| - 1])
    ensures !run[|run| - 1].cancelled && !run[|run| - 1].panicked
  {
    run := RunOut(c, [Init(c)]);
  }

  /** executeTests returns from every run that does not panic. */
  ghost predicate AlwaysReturns(c: Config) {
    forall s :: Reachable(c, s) && Stuck(c, s) && !s.panicked ==> s.returned
  }

  lemma NothingToDiscard(c: Config, s: State)
    requires Reachable(c, s) && Discover(c) == []
    ensures multiset(s.offered) == s.discarded
  {
    MutantsAreConserved(c, s);
    forall m ensures s.discarded[m] == 0 {
      assert Balanced(s, m);
    }
    assert s.discarded == multiset{};
  }

  /** executeTests returns on every schedule iff there is a worker or nothing to test. */
  lemma AlwaysReturnsIff(c: Config)
    requires TestsTerminate(c)
    ensures AlwaysReturns(c) <==> c.workers > 0 || Discover(c) == []
  {
    if c.workers > 0 || Discover(c) == [] {
      forall s | Reachable(c, s) && Stuck(c, s) && !s.panicked ensures s.returned {
        var run :| IsRun(c, run) && run[|run| - 1] == s;
        EveryRunReturns(c, run);
        if Discover(c) == [] {
          NothingToDiscard(c, s);
        }
      }
    } else {
      var run := QuietRun(c);
      FaultFreeEnd(c, run);
      FaultFreeIsRun(c, run);
      EmptyPoolNeverReturns(c, run);
    }
  }

  /** With a worker there is a fault-free, uncancelled run that returns; if some discovered mutant
      is missing from the copied tree, this run has dropped it without a word. */
  lemma MissingMutantIsDropped(c: Config, m: Mutant) returns (run: seq<State>)
    requires c.workers > 0 && TestsTerminate(c) && IsMutantOf(c, m) && Missing(c, m)
    ensures IsFaultFreeRun(c, run) && run[|run| - 1].returned && !run[|run| - 1].cancelled
    ensures m in run[|run| - 1].dropped && m !in Originals(run[|run| - 1].collected)
  {
    run := QuietRun(c);
    FaultFreeIsRun(c, run);
    EveryRunReturns(c, run);
    var k := DroppedIffMissing(c, run);
    assert Discover(c)[..k] == Discover(c);
    DiscoverIsExact(c, m);
    assert m in multiset(Discover(c));
    CollectedArePresent(c, run[|run| - 1]);
  }

  // ---- Stop and the empty pool ----

  /** With no worker and two mutants Stop can return while the first is still queued. */
  lemma EmptyPoolLeavesQueued(c: Config) returns (s: State)
    requires c.workers == 0 && |Discover(c)| >= 2
    ensures Reachable(c, s) && StopReturned(s) && s.queue == [Discover(c)[0]]
  {
    InitIsReachable(c);
    s := HandNext(c, Init(c));
    s := Enqueue(c, s);
    s := HandNext(c, s);
    s := Reaches(c, s, OfEnd(Cancel));
    s := Reaches(c, s, OfDispatcher(CheckDone));
    s := Reaches(c, s, OfDispatcher(CloseQueue));
    s := Reaches(c, s, OfDispatcher(StopReturns));
  }

  /** Stop leaves no executor behind on any schedule. */
  ghost predicate StopAlwaysWaits(c: Config) {
    forall s :: Reachable(c, s) && StopReturned(s) ==> s.queue == []
  }

  /** Stop waits for every executor, on every schedule, iff there is a worker or there are not
      two mutants to discover. */
  lemma StopAlwaysWaitsIff(c: Config)
    ensures StopAlwaysWaits(c) <==> c.workers > 0 || |Discover(c)| <= 1
  {
    if c.workers == 0 && |Discover(c)| >= 2 {
      var s := EmptyPoolLeavesQueued(c);
    } else {
      forall s | Reachable(c, s) && StopReturned(s) ensures s.queue == [] {
        StopWaitsForExecutors(c, s);
        MutantsAreConserved(c, s);
      }
    }
  }

  // ---- One executor on one worker ----

  /** Worker w is in this phase of an executor. */
  ghost predicate Ready(c: Config, s: State, w: nat, phase: Phase, x: Option<Setting>) {
    && Reachable(c, s) && !s.panicked && w < |s.workers|
    && s.workers[w].Busy? && s.workers[w].phase == phase && s.workers[w].setting == x
  }

  /** Only worker w and the memory have changed. */
  ghost predicate OnlyWorked(s: State, t: State, w: nat, worker: Worker) {
    w < |s.workers| && t == s.(workers := s.workers[w := worker], mem := t.mem)
  }

  lemma Does(c: Config, s: State, w: nat, op: Op) returns (t: State)
    requires Reachable(c, s) && !s.panicked && CanWork(c, s, w, op)
    ensures Reachable(c, t) && OnlyWorked(s, t, w, ExecWorker(c, s.mem, w, s.workers[w], op))
    ensures t.mem == ExecMemory(c, s.mem, w, s.workers[w].job, s.workers[w].phase, op)
  {
    t := Reaches(c, s, OfExecutor(w, op));
  }

  lemma Resolved(c: Config, s: State, w: nat)
    requires Reachable(c, s) && w < |s.workers| && s.workers[w].Busy? && !s.workers[w].phase.Sent?
    ensures Resolves(c, s.mem, s.workers[w].job)
  {
    ReachableInv(c, s);
    JobResolves(c, s, w);
  }

  /** From the start of an executor into its critical section. */
  lemma EnterJob(c: Config, s: State, w: nat) returns (t: State)
    requires Ready(c, s, w, Fetch, None) && FileName(c, s.workers[w].job.file) !in s.mem.locks
    requires !SkipsTests(c, s.workers[w].job)
    ensures Ready(c, t, w, Read, None) && OnlyWorked(s, t, w, Busy(s.workers[w].job, Read, None))
    ensures t.mem.failed == s.mem.failed && t.mem.damage == s.mem.damage && t.mem.asts == s.mem.asts
    ensures t.mem.locks == s.mem.locks[FileName(c, s.workers[w].job.file) := w] && w in t.mem.dirs
  {
    Resolved(c, s, w);
    t := Does(c, s, w, Get);
    assert t.mem.locks == s.mem.locks && t.mem.asts == s.mem.asts;
    t := Does(c, t, w, Branch);
    t := Does(c, t, w, Lock);
  }

  lemma FindsFile(c: Config, s: State, w: nat)
    requires Ready(c, s, w, Read, None) && WorkPath(c, s.workers[w].job) in c.source
    ensures WorkPath(c, s.workers[w].job) in Dir(s.mem, w)
  {
    ReachableInv(c, s);
    assert DirOk(c, s.mem, w, s.workers[w]) && WorkOk(c, s.mem, w, s.workers[w]);
  }

  /** From the start of an executor to its write. */
  lemma StartJob(c: Config, s: State, w: nat) returns (t: State, orig: Bytes, actual: Token)
    requires Ready(c, s, w, Fetch, None) && FileName(c, s.workers[w].job.file) !in s.mem.locks
    requires var job := s.workers[w].job; !SkipsTests(c, job) && WorkPath(c, job) in c.source
    ensures Ready(c, t, w, Write(orig, actual), None)
    ensures OnlyWorked(s, t, w, Busy(s.workers[w].job, Write(orig, actual), None))
    ensures t.mem.failed == s.mem.failed && t.mem.damage == s.mem.damage
    ensures t.mem.locks == s.mem.locks[FileName(c, s.workers[w].job.file) := w]
  {
    t := EnterJob(c, s, w);
    Resolved(c, t, w);
    FindsFile(c, t, w);
    var job := t.workers[w].job;
    orig, actual := Dir(t.mem, w)[WorkPath(c, job)], t.mem.asts[job.file][job.node];
    t := Does(c, t, w, ReadFile);
    t := Does(c, t, w, SetToken);
  }

  /** What a failed write adds to the foreign content. */
  ghost function Spoilt(c: Config, mem: Memory, w: nat, m: Mutant, residue: Option<Bytes>): map<nat, Tree> {
    if residue == None then mem.damage else mem.damage[w := Damage(mem, w)[WorkPath(c, m) := residue.value]]
  }

  /** The write fails and the lock is released. */
  lemma AbortJob(c: Config, s: State, w: nat, orig: Bytes, actual: Token, residue: Option<Bytes>) returns (t: State)
    requires Ready(c, s, w, Write(orig, actual), None)
    ensures Ready(c, t, w, Failed, None) && OnlyWorked(s, t, w, Busy(s.workers[w].job, Failed, None))
    ensures t.mem.failed == s.mem.failed + [s.workers[w].job]
    ensures t.mem.locks == s.mem.locks - {FileName(c, s.workers[w].job.file)}
    ensures t.mem.damage == Spoilt(c, s.mem, w, s.workers[w].job, residue)
    ensures t.mem.absent == s.mem.absent && t.mem.unread == s.mem.unread
  {
    Resolved(c, s, w);
    t := Does(c, s, w, WriteFault(residue));
    t := Does(c, t, w, Unlock);
  }

  /** The write fails; the executor gives up. */
  lemma FailJob(c: Config, s: State, w: nat, orig: Bytes, actual: Token, residue: Option<Bytes>) returns (t: State)
    requires Ready(c, s, w, Write(orig, actual), None)
    ensures Reachable(c, t)
    ensures t == s.(workers := s.workers[w := Idle], wg := s.wg - 1,
                    dropped := s.dropped + multiset{s.workers[w].job}, mem := t.mem)
    ensures t.mem.failed == s.mem.failed + [s.workers[w].job]
    ensures t.mem.locks == s.mem.locks - {FileName(c, s.workers[w].job.file)}
    ensures t.mem.damage == Spoilt(c, s.mem, w, s.workers[w].job, residue)
    ensures t.mem.absent == s.mem.absent && t.mem.unread == s.mem.unread
  {
    t := AbortJob(c, s, w, orig, actual, residue);
    t := Reaches(c, t, OfPool(w, Done));
  }

  /** The write succeeds and the token is put back. */
  lemma PrintJob(c: Config, s: State, w: nat, orig: Bytes, actual: Token) returns (t: State)
    requires Ready(c, s, w, Write(orig, actual), None)
    ensures Ready(c, t, w, Release(orig), Some(Setting(s.mem.failed, Damage(s.mem, w))))
    ensures OnlyWorked(s, t, w, Busy(s.workers[w].job, Release(orig), Some(Setting(s.mem.failed, Damage(s.mem, w)))))
    ensures t.mem.failed == s.mem.failed && t.mem.damage == s.mem.damage && t.mem.locks == s.mem.locks
  {
    Resolved(c, s, w);
    t := Does(c, s, w, WriteFile);
    t := Does(c, t, w, ResetToken);
  }

  /** The write succeeds; the tests start. */
  lemma WriteJob(c: Config, s: State, w: nat, orig: Bytes, actual: Token) returns (t: State)
    requires Ready(c, s, w, Write(orig, actual), None)
    ensures Ready(c, t, w, Test(orig), Some(Setting(s.mem.failed, Damage(s.mem, w))))
    ensures OnlyWorked(s, t, w, Busy(s.workers[w].job, Test(orig), Some(Setting(s.mem.failed, Damage(s.mem, w)))))
    ensures t.mem.failed == s.mem.failed && t.mem.damage == s.mem.damage
    ensures t.mem.locks == s.mem.locks - {FileName(c, s.workers[w].job.file)}
  {
    t := PrintJob(c, s, w, orig, actual);
    Resolved(c, t, w);
    t := Does(c, t, w, Unlock);
  }

  /** The next mutant goes to the idle worker w. */
  lemma NextJob(c: Config, s: State, w: nat) returns (t: State)
    requires Reachable(c, s) && !s.panicked && !s.cancelled && s.dispatcher.Receiving? && s.queue == []
    requires |s.offered| < |Discover(c)| && w < |s.workers| && s.workers[w].Idle?
    ensures Ready(c, t, w, Fetch, None)
    ensures var m := Discover(c)[|s.offered|];
            t == s.(walker := t.walker, wg := s.wg + 1, offered := s.offered + [m],
                    workers := s.workers[w := Busy(m, Fetch, None)])
  {
    t := HandNext(c, s);
    t := Enqueue(c, t);
    t := Reaches(c, t, OfPool(w, Take));
  }

  // ---- After a failed write ----

  ghost predicate IsTested(c: Config, m: Mutant) {
    !SkipsTests(c, m) && WorkPath(c, m) in c.source
  }

  /** In every project whose first two mutants are tested, a run can lose the first in its write
      and then test the second on what that has left of the AST, and of the directory if the
      write had begun. */
  lemma FailedWriteIsSeen(c: Config, residue: Option<Bytes>) returns (s: State)
    requires c.workers > 0 && |Discover(c)| >= 2
    requires IsTested(c, Discover(c)[0]) && IsTested(c, Discover(c)[1])
    ensures Reachable(c, s) && 0 < |s.workers| && s.workers[0].Busy? && s.workers[0].phase.Test?
    ensures var m, x := Discover(c)[1],
                        Setting([Discover(c)[0]],
                                if residue == None then map[] else map[WorkPath(c, Discover(c)[0]) := residue.value]);
            && s.workers[0].job == m && s.workers[0].setting == Some(x)
            && HasNode(c, m.file, m.node) && Dir(s.mem, 0) == TestedTree(c, m, x)
  {
    InitIsReachable(c);
    s := NextJob(c, Init(c), 0);
    var orig, actual;
    s, orig, actual := StartJob(c, s, 0);
    s := FailJob(c, s, 0, orig, actual, residue);
    s := NextJob(c, s, 0);
    s, orig, actual := StartJob(c, s, 0);
    s := WriteJob(c, s, 0, orig, actual);
    TestsAreIsolated(c, s, 0);
  }

  /** If the two are on different nodes of one file, the printer gets both mutations. */
  lemma TwoMutationsAtOnce(c: Config, m: Mutant, m': Mutant)
    requires HasNode(c, m.file, m.node) && HasNode(c, m'.file, m'.node) && m.file == m'.file && m.node != m'.node
    requires m.kind in KindsOf(c.files[m.file].nodes[m.node].tok)
    ensures var tok := c.files[m.file].nodes[m.node].tok;
            && PrintedTokens(c, [m], m') == MutatedTokens(c, m')[m.node := Replacement(m.kind, tok)]
            && (PrintedTokens(c, [m], m') == MutatedTokens(c, m') <==> m.kind == InvertAssignments && tok == RemAssign)
  {
    var tok, printed, alone := c.files[m.file].nodes[m.node].tok, PrintedTokens(c, [m], m'), MutatedTokens(c, m');
    forall i | 0 <= i < |printed| ensures printed[i] == alone[m.node := Replacement(m.kind, tok)][i] {
      OneMoreFailure(c, [], m, m.file, i);
      assert [] + [m] == [m];
    }
    assert printed == alone[m.node := Replacement(m.kind, tok)];
    assert printed[m.node] == Replacement(m.kind, tok) && alone[m.node] == tok;
    DiscoveredMutantChangesItsToken(m.kind, tok);
    if Replacement(m.kind, tok) == tok {
      assert printed == alone;
    }
  }

  /** If the first turned a minus into a plus, the second one on the same node turns it back:
      the program is tested as it was parsed. */
  lemma MutationUndone(c: Config, m: Mutant, m': Mutant)
    requires HasNode(c, m.file, m.node) && c.files[m.file].nodes[m.node].tok == Sub
    requires m.kind == InvertNegatives && m' == m.(kind := ArithmeticBase)
    ensures PrintedTokens(c, [m], m') == Parsed(c, m.file) != MutatedTokens(c, m')
  {
    var printed := PrintedTokens(c, [m], m');
    forall i | 0 <= i < |printed| ensures printed[i] == Parsed(c, m.file)[i] {
      OneMoreFailure(c, [], m, m.file, i);
      assert [] + [m] == [m];
    }
    assert MutatedTokens(c, m')[m.node] == Add && Parsed(c, m.file)[m.node] == Sub;
  }

  /** A file with a minus and a plus, both covered. */
  ghost function Sample(enabled: set<Kind>): Config {
    Config([SourceFile("a.go", "p", [Node(Sub, 1, 1), Node(Add, 2, 1)])], map["." + "/" + "a.go" := []], ".", enabled,
           map["a.go" := [Coverage.Block(1, 1, 9, 9)]], map[], (f, toks) => Spell(toks),
           (d, target) => {NoExitError}, false, false, 1)
  }

  /** Different texts for the programs in question. */
  function Spell(toks: seq<Token>): Bytes {
    if toks == [Sub, Add] then [1] else if toks == [Add, Add] then [2]
    else if toks == [Sub, Sub] then [3] else if toks == [Add, Sub] then [4] else []
  }

  lemma SampleIsCovered(enabled: set<Kind>, i: nat)
    requires i < 2
    ensures MutationStatus(Sample(enabled), PositionOf(Sample(enabled), 0, i)) == Runnable
  {
    var c := Sample(enabled);
    var pos := PositionOf(c, 0, i);
    var b := Coverage.Block(1, 1, 9, 9);
    assert b in c.profile[pos.filename] && Coverage.Contains(b, pos);
  }

  lemma SampleMutants(enabled: set<Kind>)
    requires ArithmeticBase in enabled
    ensures var c := Sample(enabled);
            var minus, negative, plus := NewMutant(c, 0, 0, ArithmeticBase), NewMutant(c, 0, 0, InvertNegatives),
                                         NewMutant(c, 0, 1, ArithmeticBase);
            Discover(c) == if InvertNegatives in enabled then [negative, minus, plus] else [minus, plus]
  {
    var c := Sample(enabled);
    var ks: seq<Kind> := [InvertNegatives, ArithmeticBase];
    assert ks[1..] == [ArithmeticBase] && ks[1..][1..] == [];
    assert KindMutants(c, 0, 0, ks[1..]) == [NewMutant(c, 0, 0, ArithmeticBase)] + KindMutants(c, 0, 0, ks[1..][1..]);
    assert KindMutants(c, 0, 1, [ArithmeticBase]) == [NewMutant(c, 0, 1, ArithmeticBase)];
    assert FileMutants(c, 0, 2) == [] && MutantsFrom(c, 1) == [];
    assert FileMutants(c, 0, 1) == KindMutants(c, 0, 1, [ArithmeticBase]) + FileMutants(c, 0, 2);
    assert FileMutants(c, 0, 0) == KindMutants(c, 0, 0, ks) + FileMutants(c, 0, 1);
  }

  /** A run with a verdict on the unmutated program: the write of the first mutant of a minus
      fails, and the second one puts the minus back. */
  lemma UnmutatedProgramIsTested() returns (c: Config, s: State)
    ensures Reachable(c, s) && 0 < |s.workers| && s.workers[0].Busy? && s.workers[0].phase.Test?
    ensures var m := s.workers[0].job;
            && HasNode(c, m.file, m.node)
            && Dir(s.mem, 0) == c.source[WorkPath(c, m) := c.render(m.file, Parsed(c, m.file))] != AloneTree(c, m)
  {
    var enabled := {InvertNegatives, ArithmeticBase};
    c := Sample(enabled);
    SampleMutants(enabled);
    SampleIsCovered(enabled, 0);
    s := FailedWriteIsSeen(c, None);
    var m, m' := Discover(c)[0], Discover(c)[1];
    MutationUndone(c, m, m');
    assert Parsed(c, 0) == [Sub, Add] && MutatedTokens(c, m') == [Add, Add];
    assert c.source + map[] == c.source;
    assert AloneTree(c, m')[WorkPath(c, m')] == [2];
  }

  lemma TwoInOnePrint(enabled: set<Kind>, m: Mutant, m': Mutant)
    requires m.file == m'.file == 0 && m.node == 0 && m'.node == 1 && m.kind == m'.kind == ArithmeticBase
    ensures var c := Sample(enabled);
            && Parsed(c, 0) == [Sub, Add] && MutatedTokens(c, m') == [Sub, Sub]
            && TestedTree(c, m', Setting([m], map[])) == c.source[WorkPath(c, m') := c.render(0, [Add, Sub])]
               != AloneTree(c, m')
  {
    var c := Sample(enabled);
    assert Parsed(c, 0) == [Sub, Add] && MutatedTokens(c, m') == [Sub, Sub];
    TwoMutationsAtOnce(c, m, m');
    assert PrintedTokens(c, [m], m') == [Add, Sub];
    assert c.source + map[] == c.source;
    assert AloneTree(c, m')[WorkPath(c, m')] == [3];
  }

  /** A run in which a test sees two mutations: the write of the first mutant fails, and the
      second is printed together with it. */
  lemma TwoMutationsAreTested() returns (c: Config, s: State)
    ensures Reachable(c, s) && 0 < |s.workers| && s.workers[0].Busy? && s.workers[0].phase.Test?
    ensures var m := s.workers[0].job;
            && HasNode(c, m.file, m.node) && Parsed(c, m.file) == [Sub, Add] && MutatedTokens(c, m) == [Sub, Sub]
            && Dir(s.mem, 0) == c.source[WorkPath(c, m) := c.render(m.file, [Add, Sub])] != AloneTree(c, m)
  {
    var enabled: set<Kind> := {ArithmeticBase};
    c := Sample(enabled);
    SampleMutants(enabled);
    SampleIsCovered(enabled, 0);
    SampleIsCovered(enabled, 1);
    s := FailedWriteIsSeen(c, None);
    TwoInOnePrint(enabled, Discover(c)[0], Discover(c)[1]);
  }

  /** A file that the walk finds and the copy leaves out, as it does with a symbolic link: without
      any fault its mutant gets no verdict. */
  lemma LinkedFileIsDropped() returns (c: Config, m: Mutant, run: seq<State>)
    ensures IsMutantOf(c, m) && c.source == map[]
    ensures IsFaultFreeRun(c, run) && run[|run| - 1].returned && !run[|run| - 1].cancelled
    ensures m in run[|run| - 1].dropped && m !in Originals(run[|run| - 1].collected)
  {
    var enabled: set<Kind> := {ArithmeticBase};
    c := Sample(enabled).(source := map[]);
    SampleIsCovered(enabled, 0);
    m := NewMutant(c, 0, 0, ArithmeticBase);
    assert m.status == Runnable;
    run := MissingMutantIsDropped(c, m);
  }

  /** The tests of single packages pass, those of the whole module fail. */
  ghost function OnlyTogetherKill(): Suite {
    (d: Tree, target: string) => if target == "./..." then {Exit(1)} else {NoExitError}
  }

  /** In each mode a project and a run whose verdict the tests of the other mode would change: the
      package's own tests let the mutant live, those of the whole module kill it. */
  lemma ModeDecidesTheTests(integrationMode: bool) returns (c: Config, run: seq<State>)
    ensures c.integrationMode == integrationMode && c.outcomes == OnlyTogetherKill()
    ensures IsFaultFreeRun(c, run) && run[|run| - 1].returned && run[|run| - 1].collected != []
    ensures forall r :: r in run[|run| - 1].collected ==> r.status == if integrationMode then Killed else Lived
  {
    var enabled: set<Kind> := {ArithmeticBase};
    c := Sample(enabled).(outcomes := OnlyTogetherKill(), integrationMode := integrationMode);
    SampleIsCovered(enabled, 0);
    SampleIsCovered(enabled, 1);
    run := QuietRun(c);
    FaultFreeIsRun(c, run);
    EveryRunReturns(c, run);
    SampleCollects(c, run);
    forall r | r in run[|run| - 1].collected ensures r.status == if integrationMode then Killed else Lived {
      SampleVerdict(c, run, r);
    }
  }

  lemma SampleCollects(c: Config, run: seq<State>)
    requires IsFaultFreeRun(c, run) && run[|run| - 1].returned && !run[|run| - 1].cancelled
    requires c == Sample({ArithmeticBase}).(outcomes := c.outcomes, integrationMode := c.integrationMode)
    ensures run[|run| - 1].collected != []
  {
    var m := NewMutant(c, 0, 0, ArithmeticBase);
    var k := DroppedIffMissing(c, run);
    assert Discover(c)[..k] == Discover(c);
    DiscoverIsExact(c, m);
    assert IsMutantOf(c, m) && m in multiset(Discover(c)) && !Missing(c, m);
    assert m in multiset(Originals(run[|run| - 1].collected));
  }

  lemma SampleVerdict(c: Config, run: seq<State>, r: Result)
    requires IsFaultFreeRun(c, run) && r in run[|run| - 1].collected
    requires c == Sample({ArithmeticBase}).(outcomes := OnlyTogetherKill(), integrationMode := c.integrationMode)
    ensures r.status == if c.integrationMode then Killed else Lived
  {
    var s := run[|run| - 1];
    FaultFreeEnd(c, run);
    CollectedIsMutant(c, s, r);
    SampleIsCovered({ArithmeticBase}, r.mutant.node);
    NoFaultDisturbs(c, s);
    VerdictsAreExact(c, s, r);
    UndisturbedIsFinal(c, r);
    FinalMeaning(c, r.mutant, r.status);
  }

  // ---- After a failed rollback ----

  /** The tests end, and the rollback fails. */
  lemma LeaveJob(c: Config, s: State, w: nat, orig: Bytes, x: Setting, rest: Bytes) returns (t: State, st: Status)
    requires Ready(c, s, w, Test(orig), Some(x)) && TestsTerminate(c)
    ensures Ready(c, t, w, Send(st), Some(x)) && OnlyWorked(s, t, w, Busy(s.workers[w].job, Send(st), Some(x)))
    ensures t.mem.failed == s.mem.failed && t.mem.locks == s.mem.locks
    ensures t.mem.damage == s.mem.damage[w := Damage(s.mem, w)[WorkPath(c, s.workers[w].job) := rest]]
  {
    Resolved(c, s, w);
    var end :| end in c.outcomes(Dir(s.mem, w), TestTarget(c, s.workers[w].job));
    st := TestStatus(end);
    t := Does(c, s, w, EndTest(end));
    t := Does(c, t, w, RollBackFault(rest));
  }

  /** The tests end, the rollback fails, the verdict is delivered. */
  lemma SpoilJob(c: Config, s: State, w: nat, orig: Bytes, x: Setting, rest: Bytes) returns (t: State)
    requires Ready(c, s, w, Test(orig), Some(x)) && TestsTerminate(c) && !s.outClosed && !s.returned
    ensures Reachable(c, t)
    ensures t == s.(workers := s.workers[w := Idle], wg := s.wg - 1, collected := t.collected, mem := t.mem)
    ensures t.mem.failed == s.mem.failed && t.mem.locks == s.mem.locks
    ensures t.mem.damage == s.mem.damage[w := Damage(s.mem, w)[WorkPath(c, s.workers[w].job) := rest]]
  {
    var st;
    t, st := LeaveJob(c, s, w, orig, x, rest);
    t := Reaches(c, t, OfPool(w, Deliver));
    t := Reaches(c, t, OfPool(w, Done));
  }

  /** In every project whose first two mutants are tested, a run can fail to roll the first back
      and then test the second in a directory with anything in the first one's file. */
  lemma FailedRollbackIsSeen(c: Config, rest: Bytes) returns (s: State)
    requires c.workers > 0 && |Discover(c)| >= 2 && TestsTerminate(c)
    requires IsTested(c, Discover(c)[0]) && IsTested(c, Discover(c)[1])
    ensures Reachable(c, s) && 0 < |s.workers| && s.workers[0].Busy? && s.workers[0].phase.Test?
    ensures var m, x := Discover(c)[1], Setting([], map[WorkPath(c, Discover(c)[0]) := rest]);
            && s.workers[0].job == m && s.workers[0].setting == Some(x)
            && HasNode(c, m.file, m.node) && Dir(s.mem, 0) == TestedTree(c, m, x)
  {
    InitIsReachable(c);
    s := NextJob(c, Init(c), 0);
    var orig, actual;
    s, orig, actual := StartJob(c, s, 0);
    s := WriteJob(c, s, 0, orig, actual);
    s := SpoilJob(c, s, 0, orig, Setting([], map[]), rest);
    s := NextJob(c, s, 0);
    s, orig, actual := StartJob(c, s, 0);
    s := WriteJob(c, s, 0, orig, actual);
    TestsAreIsolated(c, s, 0);
  }

  // ---- What else can happen ----

  /** The read fails; the executor gives up. */
  lemma UnreadJob(c: Config, s: State, w: nat) returns (t: State)
    requires Ready(c, s, w, Read, None)
    ensures Reachable(c, t)
    ensures t == s.(workers := s.workers[w := Idle], wg := s.wg - 1,
                    dropped := s.dropped + multiset{s.workers[w].job}, mem := t.mem)
    ensures t.mem.unread == s.mem.unread + [s.workers[w].job] && t.mem.asts == s.mem.asts
  {
    Resolved(c, s, w);
    t := Does(c, s, w, ReadFault);
    t := Does(c, t, w, Unlock);
    t := Reaches(c, t, OfPool(w, Done));
  }

  /** A failed read drops a mutant although its file is there, and changes nothing. */
  lemma FailedReadIsDropped(c: Config) returns (s: State)
    requires c.workers > 0 && |Discover(c)| >= 1 && IsTested(c, Discover(c)[0])
    ensures Reachable(c, s) && s.dropped == multiset{Discover(c)[0]} && !Missing(c, Discover(c)[0])
    ensures s.mem.asts == Init(c).mem.asts
  {
    InitIsReachable(c);
    s := NextJob(c, Init(c), 0);
    s := EnterJob(c, s, 0);
    s := UnreadJob(c, s, 0);
  }

  /** A worker that gets no directory ends the process: nothing can happen any more, and
      executeTests has not returned. */
  lemma PanicEndsTheRun(c: Config) returns (s: State)
    requires c.workers > 0 && |Discover(c)| >= 1
    ensures Reachable(c, s) && s.panicked && !s.returned && forall a :: !Enabled(c, s, a)
  {
    InitIsReachable(c);
    s := NextJob(c, Init(c), 0);
    s := Reaches(c, s, OfEnd(Panic(0)));
  }

  /** Two workers can be testing at the same time. */
  lemma TestsOverlap(c: Config) returns (s: State)
    requires c.workers > 1 && |Discover(c)| >= 2
    requires IsTested(c, Discover(c)[0]) && IsTested(c, Discover(c)[1])
    ensures Reachable(c, s) && 1 < |s.workers|
    ensures forall w :: 0 <= w < 2 ==>
              s.workers[w].Busy? && s.workers[w].phase.Test? && s.workers[w].job == Discover(c)[w]
  {
    InitIsReachable(c);
    s := NextJob(c, Init(c), 0);
    s := ToTest(c, s, 0);
    s := NextJob(c, s, 1);
    s := ToTest(c, s, 1);
  }

  /** A worker alone with its locks goes from the start of an executor to its tests. */
  lemma ToTest(c: Config, s: State, w: nat) returns (t: State)
    requires Ready(c, s, w, Fetch, None) && s.mem.locks == map[] && IsTested(c, s.workers[w].job)
    ensures Reachable(c, t) && |t.workers| == |s.workers|
    ensures t == s.(workers := s.workers[w := t.workers[w]], mem := t.mem)
    ensures t.workers[w].Busy? && t.workers[w].phase.Test? && t.workers[w].job == s.workers[w].job
    ensures t.mem.locks == map[]
  {
    var orig, actual;
    t, orig, actual := StartJob(c, s, w);
    t := WriteJob(c, t, w, orig, actual);
  }

  /** Two workers can be applying mutants of different files at the same time. */
  lemma FilesAreAppliedInParallel(c: Config) returns (s: State)
    requires c.workers > 1 && |Discover(c)| >= 2
    requires IsTested(c, Discover(c)[0]) && IsTested(c, Discover(c)[1])
    requires FileName(c, Discover(c)[0].file) != FileName(c, Discover(c)[1].file)
    ensures Reachable(c, s) && 1 < |s.workers|
    ensures forall w :: 0 <= w < 2 ==>
              s.workers[w].Busy? && s.workers[w].phase.Write? && s.workers[w].job == Discover(c)[w]
  {
    InitIsReachable(c);
    s := NextJob(c, Init(c), 0);
    var orig, actual;
    s, orig, actual := StartJob(c, s, 0);
    s := NextJob(c, s, 1);
    s, orig, actual := StartJob(c, s, 1);
  }

  /** The walk can be in the middle of a file while a worker has changed one of its tokens. */
  lemma WalkMeetsMutatedAst() returns (c: Config, s: State)
    ensures Reachable(c, s) && !s.walker.StreamClosed? && s.walker.file == 0 < |c.files|
    ensures s.mem.asts != Init(c).mem.asts
  {
    var enabled: set<Kind> := {ArithmeticBase};
    c := Sample(enabled);
    SampleMutants(enabled);
    SampleIsCovered(enabled, 0);
    InitIsReachable(c);
    s := NextJob(c, Init(c), 0);
    var orig, actual;
    s, orig, actual := StartJob(c, s, 0);
    TokenIsChanged(c, s, orig, actual);
    MutantsAreLeft(c, s);
  }

  lemma TokenIsChanged(c: Config, s: State, orig: Bytes, actual: Token)
    requires Ready(c, s, 0, Write(orig, actual), None) && c == Sample({ArithmeticBase})
    requires s.workers[0].job.file == 0 && s.workers[0].job.node == 0 && s.workers[0].job.kind == ArithmeticBase
    requires s.mem.failed == []
    ensures s.mem.asts != Init(c).mem.asts
  {
    assert s.mem.asts[0] == PrintedTokens(c, [], s.workers[0].job) by {
      ReachableInv(c, s);
      assert TokenOk(c, s.mem, s.workers[0]);
      PrinterSeesOwnMutation(c, s.workers, s.mem, 0);
    }
    assert s.mem.asts[0][0] == Add && Init(c).mem.asts[0][0] == Sub;
  }
}
