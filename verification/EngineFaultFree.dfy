/** Runs without I/O faults: what is dropped is exactly what the copied tree lacks, nothing is
    left behind, and the refinement of the sequential loop holds without further conditions
    on the final state. */
module EngineFaultFree {
  import opened Counting
  import opened EngineModel
  import opened EngineRun
  import opened EngineDiscovery
  import opened EngineTheorems

  predicate IsFault(a: Action) {
    a.OfExecutor? && (a.op.ReadFault? || a.op.WriteFault? || a.op.RollBackFault?)
  }

  ghost predicate FaultFreeAt(c: Config, run: seq<State>, i: nat)
    requires i + 1 < |run|
  {
    exists a :: Enabled(c, run[i], a) && !IsFault(a) && run[i + 1] == Next(c, run[i], a)
  }

  ghost predicate IsFaultFreeRun(c: Config, run: seq<State>) {
    && run != []
    && run[0] == Init(c)
    && forall i: nat :: i + 1 < |run| ==> FaultFreeAt(c, run, i)
  }

  /** No read, write or rollback has failed. */
  ghost predicate Clean(mem: Memory) {
    NoWriteFault(mem) && mem.unread == []
  }

  lemma CleanStep(c: Config, s: State, a: Action)
    requires Clean(s.mem) && Enabled(c, s, a) && !IsFault(a)
    ensures Clean(Next(c, s, a).mem)
  {
    if !a.OfExecutor? {
      MemoryFrame(c, s, a);
    }
  }

  lemma FaultFreeIsRun(c: Config, run: seq<State>)
    requires IsFaultFreeRun(c, run)
    ensures IsRun(c, run)
  {
    forall i: nat | i + 1 < |run| ensures StepAt(c, run, i) {
      assert FaultFreeAt(c, run, i);
    }
  }

  /** Without I/O faults no token stays substituted and no work directory is left with foreign
      content, and every mutant dropped is one whose file the copied tree lacks, at any time. */
  lemma {:induction false} FaultFreeRunsAreClean(c: Config, run: seq<State>, k: nat)
    requires IsFaultFreeRun(c, run) && k < |run|
    ensures Clean(run[k].mem) && Inv(c, run[k])
    ensures forall m :: m in run[k].dropped ==> Missing(c, m)
  {
    if k == 0 {
      InvInit(c);
    } else {
      FaultFreeRunsAreClean(c, run, k - 1);
      assert FaultFreeAt(c, run, k - 1);
      var a :| Enabled(c, run[k - 1], a) && !IsFault(a) && run[k] == Next(c, run[k - 1], a);
      CleanStep(c, run[k - 1], a);
      InvStep(c, run[k - 1], a);
    }
    DroppedAreMissing(c, run[k]);
  }

  lemma DroppedAreMissing(c: Config, s: State)
    requires Inv(c, s) && Clean(s.mem)
    ensures forall m :: m in s.dropped ==> Missing(c, m)
  {
    forall m | m in s.dropped ensures Missing(c, m) {
      assert Accounted(s, m);
      assert m in s.mem.absent;
    }
  }

  /** A returned run without I/O faults has dropped exactly the mutants whose file the copied tree
      lacks, and collected exactly the others, each once: of all discovered ones without a
      cancel, of a prefix of them with one. */
  lemma DroppedIffMissing(c: Config, run: seq<State>) returns (k: nat)
    requires IsFaultFreeRun(c, run) && run[|run| - 1].returned
    ensures var s := run[|run| - 1];
            && k <= |Discover(c)| && (!s.cancelled ==> k == |Discover(c)|)
            && multiset(Originals(s.collected)) + s.dropped == multiset(Discover(c)[..k])
            && forall m :: m in Discover(c)[..k] ==>
                 && s.dropped[m] == (if Missing(c, m) then 1 else 0)
                 && multiset(Originals(s.collected))[m] == (if Missing(c, m) then 0 else 1)
  {
    var s := run[|run| - 1];
    FaultFreeEnd(c, run);
    k := ReturnedPrefix(c, s);
    PrefixHoldsEachOnce(c, k);
    CollectedArePresent(c, s);
    SplitOnce(Discover(c)[..k], multiset(Originals(s.collected)), s.dropped, m => Missing(c, m));
  }

  /** Elements that occur once, split by a property. */
  lemma SplitOnce(all: seq<Mutant>, rest: multiset<Mutant>, part: multiset<Mutant>, p: Mutant -> bool)
    requires rest + part == multiset(all) && forall m :: multiset(all)[m] <= 1
    requires forall m :: m in part ==> p(m)
    requires forall m :: m in rest ==> !p(m)
    ensures forall m :: m in all ==> part[m] == (if p(m) then 1 else 0) && rest[m] == (if p(m) then 0 else 1)
  {
    forall m | m in all ensures part[m] == (if p(m) then 1 else 0) && rest[m] == (if p(m) then 0 else 1) {
      assert m in multiset(all) && multiset(all)[m] == rest[m] + part[m];
    }
  }

  /** The end of a fault-free run, without its history. */
  lemma FaultFreeEnd(c: Config, run: seq<State>)
    requires IsFaultFreeRun(c, run)
    ensures Reachable(c, run[|run| - 1]) && NoWriteFault(run[|run| - 1].mem)
    ensures forall m :: m in run[|run| - 1].dropped ==> Missing(c, m)
  {
    FaultFreeIsRun(c, run);
    FaultFreeRunsAreClean(c, run, |run| - 1);
  }

  lemma CollectedArePresent(c: Config, s: State)
    requires Reachable(c, s)
    ensures forall m :: m in Originals(s.collected) ==> !Missing(c, m)
  {
    ReachableInv(c, s);
    forall m | m in Originals(s.collected) ensures !Missing(c, m) {
      var i :| 0 <= i < |Originals(s.collected)| && Originals(s.collected)[i] == m;
      assert s.collected[i] in s.collected;
    }
  }

  /** Without I/O faults and a cancel every discovered mutant gets a verdict iff the copied tree
      has the file of every discovered mutant that is to be tested. */
  lemma NothingDroppedIffNoneMissing(c: Config, run: seq<State>)
    requires IsFaultFreeRun(c, run) && run[|run| - 1].returned && !run[|run| - 1].cancelled
    ensures run[|run| - 1].dropped == multiset{} <==> forall m :: IsMutantOf(c, m) ==> !Missing(c, m)
  {
    UncancelledDrops(c, run);
    forall m ensures m in Discover(c) <==> IsMutantOf(c, m) {
      DiscoverIsExact(c, m);
    }
  }

  lemma RestIsPresent(c: Config, ms: seq<Mutant>, rest: multiset<Mutant>, dropped: multiset<Mutant>)
    requires rest + dropped == multiset(ms) && forall m :: multiset(ms)[m] <= 1
    requires forall m :: m in ms ==> dropped[m] == if Missing(c, m) then 1 else 0
    ensures rest == multiset(Present(c, ms))
  {
    FilterOut(ms, dropped);
    FilterAgrees(ms, m => m !in dropped, m => !Missing(c, m));
  }

  lemma CollectsThePresent(c: Config, run: seq<State>) returns (k: nat)
    requires IsFaultFreeRun(c, run) && run[|run| - 1].returned
    ensures k <= |Discover(c)| && (!run[|run| - 1].cancelled ==> k == |Discover(c)|)
    ensures multiset(Originals(run[|run| - 1].collected)) == multiset(Present(c, Discover(c)[..k]))
  {
    var s := run[|run| - 1];
    k := DroppedIffMissing(c, run);
    PrefixHoldsEachOnce(c, k);
    RestIsPresent(c, Discover(c)[..k], multiset(Originals(s.collected)), s.dropped);
  }

  /** Every AST is as parsed and every work directory is the source tree. */
  ghost predicate AsInTheBeginning(c: Config, mem: Memory) {
    && (forall f :: 0 <= f < |c.files| ==> f < |mem.asts| && mem.asts[f] == Parsed(c, f))
    && (forall w :: w in mem.dirs ==> mem.dirs[w] == c.source)
  }

  /** The refinement for fault-free runs, with premises on inputs and steps alone: when
      executeTests returns, the verdicts are those of the sequential loop over the discovered
      mutants whose file was copied, and every AST and every work directory is as it was in the
      beginning. */
  lemma FaultFreeRunRefinesSequential(c: Config, run: seq<State>) returns (k: nat, ordered: seq<Verdict>)
    requires IsFaultFreeRun(c, run) && run[|run| - 1].returned
    ensures var s := run[|run| - 1];
            && k <= |Discover(c)| && (!s.cancelled ==> k == |Discover(c)|)
            && IsSequential(c, Present(c, Discover(c)[..k]), ordered)
            && multiset(Verdicts(s.collected)) == multiset(ordered)
    ensures AsInTheBeginning(c, run[|run| - 1].mem)
  {
    var s := run[|run| - 1];
    k := CollectsThePresent(c, run);
    FaultFreeEnd(c, run);
    ordered := VerdictsWithoutTrace(c, s, Present(c, Discover(c)[..k]));
  }

  lemma VerdictsWithoutTrace(c: Config, s: State, ms: seq<Mutant>) returns (ordered: seq<Verdict>)
    requires Reachable(c, s) && s.returned && NoWriteFault(s.mem)
    requires multiset(Originals(s.collected)) == multiset(ms)
    ensures IsSequential(c, ms, ordered) && multiset(Verdicts(s.collected)) == multiset(ordered)
    ensures AsInTheBeginning(c, s.mem)
  {
    NoFaultDisturbs(c, s);
    ordered := OrderedVerdicts(c, s, ms);
    ReturnedLeavesNoTrace(c, s);
  }

  /** With deterministic tests all returned, uncancelled runs without I/O faults drop the same
      mutants and agree on all verdicts, for every schedule and every pool size. */
  lemma FaultFreeSchedulesAgree(c: Config, c': Config, run: seq<State>, run': seq<State>)
    requires c' == c.(workers := c'.workers) && Deterministic(c)
    requires IsFaultFreeRun(c, run) && run[|run| - 1].returned && !run[|run| - 1].cancelled
    requires IsFaultFreeRun(c', run') && run'[|run'| - 1].returned && !run'[|run'| - 1].cancelled
    ensures run[|run| - 1].dropped == run'[|run'| - 1].dropped
    ensures multiset(Verdicts(run[|run| - 1].collected)) == multiset(Verdicts(run'[|run'| - 1].collected))
  {
    var s, s' := run[|run| - 1], run'[|run'| - 1];
    SameDropped(c, c', run, run');
    FaultFreeEnd(c, run);
    FaultFreeEnd(c', run');
    NoFaultDisturbs(c, s);
    NoFaultDisturbs(c', s');
    SchedulesAgree(c, c', s, s');
  }

  /** Without a cancel the configuration decides what is dropped. */
  ghost predicate DropsByConfig(c: Config, dropped: multiset<Mutant>) {
    forall m :: dropped[m] == if m in Discover(c) && Missing(c, m) then 1 else 0
  }

  lemma UncancelledDrops(c: Config, run: seq<State>)
    requires IsFaultFreeRun(c, run) && run[|run| - 1].returned && !run[|run| - 1].cancelled
    ensures DropsByConfig(c, run[|run| - 1].dropped)
  {
    var s := run[|run| - 1];
    var k := DroppedIffMissing(c, run);
    assert Discover(c)[..k] == Discover(c);
    forall m ensures s.dropped[m] == if m in Discover(c) && Missing(c, m) then 1 else 0 {
      assert m !in Discover(c) ==> m !in multiset(Discover(c));
    }
  }

  lemma SameDropped(c: Config, c': Config, run: seq<State>, run': seq<State>)
    requires c' == c.(workers := c'.workers)
    requires IsFaultFreeRun(c, run) && run[|run| - 1].returned && !run[|run| - 1].cancelled
    requires IsFaultFreeRun(c', run') && run'[|run'| - 1].returned && !run'[|run'| - 1].cancelled
    ensures run[|run| - 1].dropped == run'[|run'| - 1].dropped
  {
    UncancelledDrops(c, run);
    UncancelledDrops(c', run');
    PoolSizeIsInvisible(c, c', 0);
    SameMultiset(c, c', run[|run| - 1].dropped, run'[|run'| - 1].dropped);
  }

  lemma SameMultiset(c: Config, c': Config, a: multiset<Mutant>, b: multiset<Mutant>)
    requires c' == c.(workers := c'.workers) && Discover(c') == Discover(c)
    requires DropsByConfig(c, a) && DropsByConfig(c', b)
    ensures a == b
  {
    forall m ensures a[m] == b[m] {
    }
  }

  /** After a return without write faults nothing of the mutations is left. */
  lemma ReturnedLeavesNoTrace(c: Config, s: State)
    requires Reachable(c, s) && s.returned && NoWriteFault(s.mem)
    ensures AsInTheBeginning(c, s.mem)
  {
    ReachableInv(c, s);
    ReturnedIsQuiet(c, s);
    forall f: nat | 0 <= f < |c.files| ensures f < |s.mem.asts| && s.mem.asts[f] == Parsed(c, f) {
      FreeFileIsPristine(c, s, f);
    }
    forall w | w in s.mem.dirs ensures s.mem.dirs[w] == c.source {
      DirectoryIsPristineOtherwise(c, s, w);
    }
  }
}
