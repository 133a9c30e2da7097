/** From the inputs of a run to its exit code: what makes a mutant runnable, and why the
    report of a run does not depend on schedule or pool size. */
module EndToEnd {
  import opened Mutation
  import opened Counting
  import opened EngineModel
  import opened EngineDiscovery
  import opened EngineTheorems
  import opened EngineFaultFree
  import opened EngineMeaning
  import Report

  // ---- Initial status ----

  /** mutationStatus as the engine runs it. */
  method InitialStatus(c: Config, pos: Position) returns (status: Status)
    ensures status == MutationStatus(c, pos)
  {
    status := NotCovered;
    var covered := Coverage.IsCovered(c.profile, pos);
    if covered {
      status := Runnable;
    }
    var changed := Diff.IsChanged(c.changes, pos);
    if !changed {
      status := Skipped;
    }
  }

  /** A position that the coverage report counted. */
  ghost predicate Executed(profiles: seq<Coverage.FileProfile>, rename: Path -> Path, pos: Position) {
    exists b :: Coverage.Reported(profiles, rename, pos.filename, b) && Coverage.Contains(b, pos)
  }

  /** With hunks whose additions stand together, a discovered mutant is tested iff its
      position was executed by the test suite and its line was added by the diff (any line
      if the diff names no file); a line the diff did not add is skipped, covered or not. */
  lemma RunnableMeansExecutedAndAdded(c: Config, profiles: seq<Coverage.FileProfile>, rename: Path -> Path,
                                      files: seq<Diff.FileDiff>, pos: Position)
    requires Coverage.IsFoldOf(c.profile, profiles, rename) && c.changes == Diff.Collect(files)
    requires Diff.AllTogether(files) && Diff.NothingReplaced(files)
    ensures MutationStatus(c, pos) == Runnable
       <==> Executed(profiles, rename, pos) && (files == [] || Diff.ReallyAdded(files, pos))
    ensures MutationStatus(c, pos) == Skipped <==> files != [] && !Diff.ReallyAdded(files, pos)
  {
    Coverage.LookupMatchesReport(c.profile, profiles, rename, pos);
    Diff.ChangedMeansAdded(files, pos);
  }

  /** The report has a counted block of the file name that starts at or before and ends at or
      after this line and column. */
  ghost predicate ExecutedAt(profiles: seq<Coverage.FileProfile>, rename: Path -> Path, name: Path, line: int,
                             column: int) {
    exists p, i | 0 <= p < |profiles| && 0 <= i < |profiles[p].blocks| ::
      && rename(profiles[p].fileName) == name
      && profiles[p].blocks[i].count != 0
      && var b := profiles[p].blocks[i].block;
         && (b.startLine < line || (b.startLine == line && b.startCol <= column))
         && (line < b.endLine || (line == b.endLine && column <= b.endCol))
  }

  /** The diff adds this line of the file name. */
  ghost predicate AddedAt(files: seq<Diff.FileDiff>, name: Path, line: int) {
    exists i, j | 0 <= i < |files| && 0 <= j < |files[i].fragments| ::
      && files[i].newName == name
      && line in Diff.AddedLines(files[i].fragments[j].lines, files[i].fragments[j].newPosition)
  }

  lemma ExecutedIsAt(profiles: seq<Coverage.FileProfile>, rename: Path -> Path, pos: Position)
    ensures Executed(profiles, rename, pos) <==> ExecutedAt(profiles, rename, pos.filename, pos.line, pos.column)
  {
    if Executed(profiles, rename, pos) {
      var b :| Coverage.Reported(profiles, rename, pos.filename, b) && Coverage.Contains(b, pos);
      var p, i :| 0 <= p < |profiles| && 0 <= i < |profiles[p].blocks|
        && rename(profiles[p].fileName) == pos.filename
        && profiles[p].blocks[i].block == b && profiles[p].blocks[i].count != 0;
      assert rename(profiles[p].fileName) == pos.filename && profiles[p].blocks[i].count != 0;
    }
    if ExecutedAt(profiles, rename, pos.filename, pos.line, pos.column) {
      var p, i :| 0 <= p < |profiles| && 0 <= i < |profiles[p].blocks|
        && rename(profiles[p].fileName) == pos.filename && profiles[p].blocks[i].count != 0
        && Coverage.Contains(profiles[p].blocks[i].block, pos);
      assert Coverage.Reported(profiles, rename, pos.filename, profiles[p].blocks[i].block);
    }
  }

  lemma AddedIsAt(files: seq<Diff.FileDiff>, pos: Position)
    ensures Diff.ReallyAdded(files, pos) <==> AddedAt(files, pos.filename, pos.line)
  {
    if Diff.ReallyAdded(files, pos) {
      var i: nat, j: nat :| Diff.AddsAt(files, i, j, pos);
      assert files[i].newName == pos.filename
             && pos.line in Diff.AddedLines(files[i].fragments[j].lines, files[i].fragments[j].newPosition);
    }
    if AddedAt(files, pos.filename, pos.line) {
      var i, j :| 0 <= i < |files| && 0 <= j < |files[i].fragments| && files[i].newName == pos.filename
        && pos.line in Diff.AddedLines(files[i].fragments[j].lines, files[i].fragments[j].newPosition);
      assert Diff.AddsAt(files, i, j, pos);
    }
  }

  /** The configuration is that of this coverage report and this diff, whose hunks keep their
      additions together and none of whose entries with additions is replaced. */
  ghost predicate Fed(c: Config, profiles: seq<Coverage.FileProfile>, rename: Path -> Path, files: seq<Diff.FileDiff>) {
    && Coverage.IsFoldOf(c.profile, profiles, rename) && c.changes == Diff.Collect(files)
    && Diff.AllTogether(files) && Diff.NothingReplaced(files)
  }

  /** The status of a discovered mutant, by the line and column of its node: runnable iff the
      report counted the node and the diff added its line or names no file, skipped iff the diff
      names files and did not add it, and otherwise not covered. */
  lemma DiscoveredStatus(c: Config, profiles: seq<Coverage.FileProfile>, rename: Path -> Path,
                         files: seq<Diff.FileDiff>, m: Mutant)
    requires Fed(c, profiles, rename, files) && m in Discover(c)
    ensures m.file < |c.files| && m.node < |c.files[m.file].nodes|
    ensures var name, node := c.files[m.file].name, c.files[m.file].nodes[m.node];
            var executed, added := ExecutedAt(profiles, rename, name, node.line, node.column),
                                   files == [] || AddedAt(files, name, node.line);
            && (m.status == Runnable <==> executed && added)
            && (m.status == Skipped <==> !added)
            && (m.status == NotCovered <==> !executed && added)
  {
    assert m in multiset(Discover(c));
    DiscoverIsExact(c, m);
    var pos := Position(c.files[m.file].name, c.files[m.file].nodes[m.node].line, c.files[m.file].nodes[m.node].column);
    RunnableMeansExecutedAndAdded(c, profiles, rename, files, pos);
    ExecutedIsAt(profiles, rename, pos);
    AddedIsAt(files, pos);
  }

  /** In a run that is not a dry run a collected mutant was tested iff its node was executed by the
      test suite and its line was added, or the diff names no file; otherwise it is reported as
      skipped or not covered, without having been touched. */
  lemma TestedIffExecutedAndAdded(c: Config, profiles: seq<Coverage.FileProfile>, rename: Path -> Path,
                                  files: seq<Diff.FileDiff>, s: State, r: Result)
    requires Fed(c, profiles, rename, files) && Reachable(c, s) && r in s.collected && !c.dryRun
    ensures r.mutant.file < |c.files| && r.mutant.node < |c.files[r.mutant.file].nodes|
    ensures var name, node := c.files[r.mutant.file].name, c.files[r.mutant.file].nodes[r.mutant.node];
            var executed, added := ExecutedAt(profiles, rename, name, node.line, node.column),
                                   files == [] || AddedAt(files, name, node.line);
            && (r.setting.Some? <==> executed && added)
            && (!added ==> r.status == Skipped)
            && (added && !executed ==> r.status == NotCovered)
  {
    CollectedIsMutant(c, s, r);
    DiscoverIsExact(c, r.mutant);
    assert r.mutant in multiset(Discover(c));
    DiscoveredStatus(c, profiles, rename, files, r.mutant);
    CollectedWasTestedIff(c, s, r);
  }

  // ---- Exit code ----

  ghost function EntryOf(c: Config, v: Verdict): Report.Entry {
    var m := v.mutant;
    var pos := if HasNode(c, m.file, m.node) then PositionOf(c, m.file, m.node) else Position("", 0, 0);
    Report.Entry(pos, m.kind, v.status)
  }

  ghost function Entries(c: Config, vs: seq<Verdict>): seq<Report.Entry> {
    seq(|vs|, i requires 0 <= i < |vs| => EntryOf(c, vs[i]))
  }

  ghost function Maps(c: Config, e: Report.Entry): Verdict -> bool {
    (v: Verdict) => EntryOf(c, v) == e
  }

  lemma {:induction false} EntriesCount(c: Config, vs: seq<Verdict>, e: Report.Entry)
    ensures multiset(Entries(c, vs))[e] == CountIf(vs, Maps(c, e))
  {
    if |vs| > 0 {
      var init := vs[..|vs| - 1];
      EntriesCount(c, init, e);
      assert Entries(c, vs) == Entries(c, init) + [EntryOf(c, vs[|vs| - 1])];
    }
  }

  lemma EntriesPermuted(c: Config, vs: seq<Verdict>, vs': seq<Verdict>)
    requires multiset(vs) == multiset(vs')
    ensures multiset(Entries(c, vs)) == multiset(Entries(c, vs'))
  {
    forall e ensures multiset(Entries(c, vs))[e] == multiset(Entries(c, vs'))[e] {
      EntriesCount(c, vs, e);
      EntriesCount(c, vs', e);
      CountIfPermuted(vs, vs', Maps(c, e));
    }
  }

  /** What report.Do sees of a finished run. */
  ghost function Collected(c: Config, s: State): seq<Report.Entry> {
    Entries(c, Verdicts(s.collected))
  }

  /** The report gets one entry for each result, in the order of collection, with its final status
      and the type and place of its mutant. */
  lemma EntriesAreResults(c: Config, s: State)
    requires Reachable(c, s)
    ensures |Collected(c, s)| == |s.collected|
    ensures forall i :: 0 <= i < |s.collected| ==>
              var r, e := s.collected[i], Collected(c, s)[i];
              && e.status == r.status && e.kind == r.mutant.kind
              && r.mutant.file < |c.files| && r.mutant.node < |c.files[r.mutant.file].nodes|
              && e.pos.filename == c.files[r.mutant.file].name
              && e.pos.line == c.files[r.mutant.file].nodes[r.mutant.node].line
              && e.pos.column == c.files[r.mutant.file].nodes[r.mutant.node].column
  {
    forall i | 0 <= i < |s.collected|
      ensures var r := s.collected[i];
              HasNode(c, r.mutant.file, r.mutant.node) && Collected(c, s)[i] == EntryOf(c, VerdictOf(r))
    {
      CollectedIsMutant(c, s, s.collected[i]);
    }
  }

  /** How many results have this status. */
  ghost function Results(s: State, st: Status): nat {
    |set i | 0 <= i < |s.collected| && s.collected[i].status == st|
  }

  lemma EntriesCountResults(c: Config, s: State, st: Status)
    requires Reachable(c, s)
    ensures Report.Number(Collected(c, s), st) == Report.StatusCount(Collected(c, s), st) == Results(s, st)
  {
    EntriesAreResults(c, s);
    Report.StatusIsNumber(Collected(c, s), st);
    assert (set i | 0 <= i < |Collected(c, s)| && Collected(c, s)[i].status == st)
        == set i | 0 <= i < |s.collected| && s.collected[i].status == st;
  }

  /** With which error a run exits, by the final statuses of what it has collected. */
  lemma ExitOfARun(c: Config, s: State, et: Report.Threshold, ct: Report.Threshold, e: real, cov: real)
    requires Reachable(c, s) && Report.Demands(et, e) && Report.Demands(ct, cov)
    ensures var k, l, n := Results(s, Killed), Results(s, Lived), Results(s, NotCovered);
            Report.ExitOf(Collected(c, s), et, ct, c.dryRun)
            == if c.dryRun || s.collected == [] then None
               else if !Report.Exceeds(k, k + l, e) then Some(Report.EfficacyThreshold)
               else if !Report.Exceeds(k + l, k + l + n, cov) then Some(Report.MutantCoverageThreshold)
               else None
  {
    assert |Collected(c, s)| == |s.collected|;
    EntriesCountResults(c, s, Killed);
    EntriesCountResults(c, s, Lived);
    EntriesCountResults(c, s, NotCovered);
    Report.ExitMeaning(Collected(c, s), et, ct, c.dryRun, e, cov);
  }

  ghost predicate FinishedCleanly(c: Config, s: State) {
    Reachable(c, s) && s.returned && AllUndisturbed(c, s)
  }

  /** The exit code and the counters of a run whose tests all ran on their own mutant alone are
      those of the sequential loop over the mutants that were not dropped. */
  lemma ExitIsThatOfTheSequentialLoop(c: Config, s: State, et: Report.Threshold, ct: Report.Threshold)
    returns (k: nat, ordered: seq<Verdict>)
    requires FinishedCleanly(c, s)
    ensures k <= |Discover(c)| && (!s.cancelled ==> k == |Discover(c)|)
    ensures IsSequential(c, Kept(Discover(c)[..k], s.dropped), ordered)
    ensures Report.ExitOf(Collected(c, s), et, ct, c.dryRun) == Report.ExitOf(Entries(c, ordered), et, ct, c.dryRun)
    ensures forall st :: Report.StatusCount(Collected(c, s), st) == Report.StatusCount(Entries(c, ordered), st)
  {
    k, ordered := ParallelRefinesSequential(c, s);
    EntriesPermuted(c, Verdicts(s.collected), ordered);
    Report.ReportIgnoresOrder(Collected(c, s), Entries(c, ordered), et, ct, c.dryRun);
  }

  lemma SameVerdictsSameExit(c: Config, c': Config, s: State, s': State,
                             et: Report.Threshold, ct: Report.Threshold)
    requires c' == c.(workers := c'.workers)
    requires multiset(Verdicts(s.collected)) == multiset(Verdicts(s'.collected))
    ensures Report.ExitOf(Collected(c, s), et, ct, c.dryRun) == Report.ExitOf(Collected(c', s'), et, ct, c.dryRun)
  {
    EntriesPermuted(c, Verdicts(s.collected), Verdicts(s'.collected));
    assert Collected(c', s') == Entries(c, Verdicts(s'.collected));
    Report.ReportIgnoresOrder(Collected(c, s), Collected(c', s'), et, ct, c.dryRun);
  }

  /** With deterministic tests all uncancelled runs that dropped the same mutants, and whose tests
      all ran on their own mutant alone, exit alike, for every schedule and every pool size. */
  lemma ExitIgnoresScheduleAndPool(c: Config, c': Config, s: State, s': State,
                                   et: Report.Threshold, ct: Report.Threshold)
    requires c' == c.(workers := c'.workers) && Deterministic(c)
    requires FinishedCleanly(c, s) && FinishedCleanly(c', s') && !s.cancelled && !s'.cancelled
    requires s.dropped == s'.dropped
    ensures Report.ExitOf(Collected(c, s), et, ct, c.dryRun) == Report.ExitOf(Collected(c', s'), et, ct, c.dryRun)
  {
    SchedulesAgree(c, c', s, s');
    SameVerdictsSameExit(c, c', s, s', et, ct);
  }

  /** With deterministic tests all uncancelled runs without I/O faults exit alike. */
  lemma FaultFreeRunsExitAlike(c: Config, c': Config, run: seq<State>, run': seq<State>,
                               et: Report.Threshold, ct: Report.Threshold)
    requires c' == c.(workers := c'.workers) && Deterministic(c)
    requires IsFaultFreeRun(c, run) && run[|run| - 1].returned && !run[|run| - 1].cancelled
    requires IsFaultFreeRun(c', run') && run'[|run'| - 1].returned && !run'[|run'| - 1].cancelled
    ensures Report.ExitOf(Collected(c, run[|run| - 1]), et, ct, c.dryRun)
         == Report.ExitOf(Collected(c', run'[|run'| - 1]), et, ct, c.dryRun)
  {
    FaultFreeSchedulesAgree(c, c', run, run');
    SameVerdictsSameExit(c, c', run[|run| - 1], run'[|run'| - 1], et, ct);
  }
}
