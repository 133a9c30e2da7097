/** What the runs of the engine mean for one mutant, in terms of the parsed node, the configured
    package and the exit of the tests alone. */
module EngineMeaning {
  import opened Mutation
  import opened MutationMeaning
  import opened EngineModel
  import opened EngineRun
  import opened EngineMemory
  import opened EngineFaults
  import opened EngineDiscovery
  import opened EngineTheorems

  // ---- Which mutants are tested ----

  predicate NotForTesting(c: Config, m: Mutant) {
    c.dryRun || m.status == Skipped || m.status == NotCovered
  }

  /** A mutant outside the diff, or not covered, or in a dry run, is never locked, written or
      tested; it goes from its directory straight to the collector, as it is. */
  lemma NotForTestingIsNeverTouched(c: Config, s: State, w: nat)
    requires Reachable(c, s) && w < |s.workers| && s.workers[w].Busy? && NotForTesting(c, s.workers[w].job)
    ensures var p := s.workers[w].phase;
            && (p.Fetch? || p.Decide? || p.Sent? || p == Send(s.workers[w].job.status))
            && (p.Sent? || s.workers[w].setting == None)
    ensures forall name :: name in s.mem.locks ==> s.mem.locks[name] != w
    ensures w in s.mem.dirs ==> s.mem.dirs[w] == c.source + Damage(s.mem, w)
  {
    ReachableInv(c, s);
    assert WorkOk(c, s.mem, w, s.workers[w]) && DirOk(c, s.mem, w, s.workers[w]);
  }

  /** Every collected mutant was tested unless it was not for testing; then it keeps its status. */
  lemma CollectedWasTestedIff(c: Config, s: State, r: Result)
    requires Reachable(c, s) && r in s.collected
    ensures r.setting.Some? <==> !NotForTesting(c, r.mutant)
    ensures NotForTesting(c, r.mutant) ==> r.status == r.mutant.status
  {
    VerdictsAreExact(c, s, r);
  }

  /** No mutant that is not for testing is dropped. */
  lemma DroppedWasForTesting(c: Config, s: State, w: nat)
    requires Reachable(c, s) && w < |s.workers| && s.workers[w].Busy?
    requires s.workers[w].phase.Abort? || s.workers[w].phase.Failed?
    ensures !NotForTesting(c, s.workers[w].job)
  {
    ReachableInv(c, s);
    assert WorkOk(c, s.mem, w, s.workers[w]);
  }

  // ---- Which tests decide ----

  /** How `go test` ends on this target, as a status. */
  ghost predicate EndsAs(c: Config, d: Tree, target: string, st: Status) {
    || (DeadlineExceeded in c.outcomes(d, target) && st == TimedOut)
    || (Exit(1) in c.outcomes(d, target) && st == Killed)
    || (Exit(2) in c.outcomes(d, target) && st == NotViable)
    || (NoExitError in c.outcomes(d, target) && st == Lived)
    || (st == Lived && exists code :: code != 1 && code != 2 && Exit(code) in c.outcomes(d, target))
  }

  lemma EndsAsStatus(c: Config, d: Tree, target: string, st: Status)
    ensures EndsAs(c, d, target, st) <==> exists end :: end in c.outcomes(d, target) && st == TestStatus(end)
  {
    forall end | end in c.outcomes(d, target) && st == TestStatus(end) ensures EndsAs(c, d, target, st) {
      TestStatusMeaning(end);
    }
    if EndsAs(c, d, target, st) && st == Lived && NoExitError !in c.outcomes(d, target) {
      var code :| code != 1 && code != 2 && Exit(code) in c.outcomes(d, target);
      assert TestStatus(Exit(code)) == Lived;
    }
    assert TestStatus(DeadlineExceeded) == TimedOut && TestStatus(Exit(1)) == Killed
           && TestStatus(Exit(2)) == NotViable && TestStatus(NoExitError) == Lived;
  }

  /** The status a mutant gets alone: its own if it is not for testing; otherwise what the tests
      of its package make of the source tree with the mutant in it, or all tests in
      integration mode. */
  lemma FinalMeaning(c: Config, m: Mutant, st: Status)
    requires HasNode(c, m.file, m.node)
    ensures NotForTesting(c, m) ==> (IsFinal(c, m, st) <==> st == m.status)
    ensures !NotForTesting(c, m) && !c.integrationMode ==>
              (IsFinal(c, m, st) <==> EndsAs(c, AloneTree(c, m), c.files[m.file].pkg, st))
    ensures !NotForTesting(c, m) && c.integrationMode ==>
              (IsFinal(c, m, st) <==> EndsAs(c, AloneTree(c, m), "./...", st))
  {
    EndsAsStatus(c, AloneTree(c, m), TestTarget(c, m), st);
  }

  /** The same for a verdict on the tree that the mutant's write left. */
  lemma VerdictMeaning(c: Config, m: Mutant, st: Status, x: Setting)
    requires HasNode(c, m.file, m.node) && !NotForTesting(c, m)
    ensures !c.integrationMode ==>
              (IsVerdict(c, m, st, Some(x)) <==> EndsAs(c, TestedTree(c, m, x), c.files[m.file].pkg, st))
    ensures c.integrationMode ==>
              (IsVerdict(c, m, st, Some(x)) <==> EndsAs(c, TestedTree(c, m, x), "./...", st))
  {
    EndsAsStatus(c, TestedTree(c, m, x), TestTarget(c, m), st);
  }

  /** Two suites that agree on this target in every tree. */
  ghost predicate AgreeOn(c: Config, c': Config, target: string) {
    c' == c.(outcomes := c'.outcomes) && forall d: Tree :: c.outcomes(d, target) == c'.outcomes(d, target)
  }

  /** Without integration mode only the tests of the mutant's own package decide; with it, only
      those of the whole module. */
  lemma OnlyItsTestsDecide(c: Config, c': Config, m: Mutant, st: Status, x: Setting)
    requires HasNode(c, m.file, m.node)
    requires if c.integrationMode then AgreeOn(c, c', "./...") else AgreeOn(c, c', c.files[m.file].pkg)
    ensures IsFinal(c, m, st) <==> IsFinal(c', m, st)
    ensures IsVerdict(c, m, st, Some(x)) <==> IsVerdict(c', m, st, Some(x))
  {
    SameMeaning(c, c'.outcomes, m, x);
  }

  // ---- What is tested ----

  /** toks is the parsed file with the one token of the mutant turned into what its type says. */
  ghost predicate OneMutation(nodes: seq<Node>, m: Mutant, toks: seq<Token>)
    requires m.node < |nodes|
  {
    && |toks| == |nodes|
    && (forall i :: 0 <= i < |nodes| && i != m.node ==> toks[i] == nodes[i].tok)
    && Mutates(m.kind, nodes[m.node].tok, toks[m.node])
  }

  lemma MutatedIsOneMutation(c: Config, m: Mutant)
    requires IsMutantOf(c, m)
    ensures OneMutation(c.files[m.file].nodes, m, MutatedTokens(c, m))
  {
    ReplacementMutates(m.kind, c.files[m.file].nodes[m.node].tok);
  }

  /** All tokens that mutate a file as m does print alike: there is only one way. */
  lemma OneMutationIsMutated(c: Config, m: Mutant, toks: seq<Token>)
    requires IsMutantOf(c, m) && OneMutation(c.files[m.file].nodes, m, toks)
    ensures toks == MutatedTokens(c, m)
  {
    TablesMeanTheTypes(m.kind, c.files[m.file].nodes[m.node].tok, toks[m.node]);
  }

  /** In a directory where nothing has failed, for a file whose writes have not failed, a test runs
      on the source tree in which one file, the mutant's own below the calling directory, is the
      print of its parsed tokens with one operator turned into what the type says. */
  lemma TestSeesOneMutation(c: Config, s: State, w: nat)
    requires Reachable(c, s) && w < |s.workers| && s.workers[w].Busy? && s.workers[w].phase.Test?
    requires FileClean(s.mem.failed, s.workers[w].job.file) && w !in s.mem.damage
    ensures IsMutantOf(c, s.workers[w].job)
    ensures var m := s.workers[w].job;
            exists toks :: OneMutation(c.files[m.file].nodes, m, toks)
              && Dir(s.mem, w) == c.source[c.callingDir + "/" + c.files[m.file].name := c.render(m.file, toks)]
  {
    var m := s.workers[w].job;
    JobIsMutant(c, s, w);
    TestsAreIsolated(c, s, w);
    LocalIsAlone(c, m, s.workers[w].setting.value);
    MutatedIsOneMutation(c, m);
  }

  lemma JobIsMutant(c: Config, s: State, w: nat)
    requires Reachable(c, s) && w < |s.workers| && s.workers[w].Busy? && !s.workers[w].phase.Sent?
    ensures IsMutantOf(c, s.workers[w].job)
  {
    ReachableInv(c, s);
    JobWasOffered(s, w);
    OfferedIsMutant(c, s, s.workers[w].job);
  }

  lemma OfferedIsMutant(c: Config, s: State, m: Mutant)
    requires Reachable(c, s) && m in s.offered
    ensures IsMutantOf(c, m)
  {
    MutantsAreConserved(c, s);
    assert m in Discover(c) by {
      var i :| 0 <= i < |s.offered| && s.offered[i] == m;
      assert Discover(c)[i] == m;
    }
    assert m in multiset(Discover(c));
    DiscoverIsExact(c, m);
  }

  /** What is collected was discovered. */
  lemma CollectedIsMutant(c: Config, s: State, r: Result)
    requires Reachable(c, s) && r in s.collected
    ensures IsMutantOf(c, r.mutant)
  {
    ReachableInv(c, s);
    var i :| 0 <= i < |s.collected| && s.collected[i] == r;
    assert Originals(s.collected)[i] == r.mutant;
    assert r.mutant in multiset(Originals(s.collected));
    assert Balanced(s, r.mutant);
    OfferedIsMutant(c, s, r.mutant);
  }
}
