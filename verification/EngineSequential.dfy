/** The sequential loop the parallel engine refines: one executor after the other on one
    directory, each with the Apply, test and Rollback of the real objects
    (internal/engine/executor.go:167-199). */
module EngineSequential {
  import opened Mutation
  import opened EngineModel
  import opened EngineMemory
  import opened EngineTermination
  import opened EngineTheorems
  import opened TokenMutators

  /** The shared ASTs hold the parsed tokens. */
  ghost predicate AllParsed(c: Config, asts: seq<array<Token>>)
    reads asts
  {
    && |asts| == |c.files|
    && forall f :: 0 <= f < |asts| ==> asts[f][..] == Parsed(c, f)
  }

  /** runTests: the tests end in one of the ways possible in this directory. */
  method RunTests(c: Config, disk: Disk, target: string) returns (st: Status)
    requires TestsTerminate(c)
    ensures exists end :: end in c.outcomes(disk.files, target) && st == TestStatus(end)
  {
    var end :| end in c.outcomes(disk.files, target);
    st := TestStatus(end);
  }

  /** The mutant of a node, as the engine hands it to an executor. */
  method NewMutator(c: Config, asts: seq<array<Token>>, m: Mutant) returns (tm: TokenMutator)
    requires AllParsed(c, asts) && HasNode(c, m.file, m.node)
    ensures fresh(tm) && tm.Valid() && tm.tokenNode.ast == asts[m.file]
    ensures tm.FilePath() == WorkPath(c, m) && tm.line == c.files[m.file].nodes[m.node].line
    ensures forall toks :: tm.render(toks) == Some(c.render(m.file, toks))
    ensures tm.MutatedAst(asts[m.file][..]) == MutatedTokens(c, m)
  {
    assert asts[m.file][..] == Parsed(c, m.file);
    var node := new NodeToken(asts[m.file], m.node);
    tm := new TokenMutator(c.files[m.file].name, c.files[m.file].nodes[m.node].line,
                           toks => Some(c.render(m.file, toks)), node, m.kind, m.status);
    tm.SetWorkdir(c.callingDir);
  }

  /** Apply, tests and Rollback without I/O faults. */
  method TestMutant(c: Config, asts: seq<array<Token>>, disk: Disk, lock: FileLock, m: Mutant)
    returns (st: Option<Status>)
    requires TestsTerminate(c) && AllParsed(c, asts) && HasNode(c, m.file, m.node) && !SkipsTests(c, m)
    requires disk.files == c.source && !lock.locked
    modifies disk, lock, asts[m.file]
    ensures disk.files == c.source && !lock.locked && asts[m.file][..] == old(asts[m.file][..])
    ensures st == None <==> WorkPath(c, m) !in c.source
    ensures st.Some? ==> IsFinal(c, m, st.value)
  {
    var tm := NewMutator(c, asts, m);
    var applied := tm.Apply(disk, lock, NO_FAULTS);
    if !applied {
      return None;
    }
    assert disk.files == AloneTree(c, m);
    var status := RunTests(c, disk, TestTarget(c, m));
    var _ := tm.Rollback(disk, None);
    assert disk.files == c.source;
    st := Some(status);
  }

  /** The body of an executor without I/O faults. None: the file is missing from the work
      directory and Apply dropped the mutant. */
  method RunExecutor(c: Config, asts: seq<array<Token>>, disk: Disk, lock: FileLock, m: Mutant)
    returns (v: Option<Verdict>)
    requires TestsTerminate(c) && AllParsed(c, asts) && HasNode(c, m.file, m.node)
    requires disk.files == c.source && !lock.locked
    modifies disk, lock, asts[m.file]
    ensures disk.files == c.source && !lock.locked && AllParsed(c, asts)
    ensures v == None <==> Missing(c, m)
    ensures v.Some? ==> v.value.mutant == m && IsFinal(c, m, v.value.status)
  {
    if SkipsTests(c, m) {
      return Some(Verdict(m, m.status));
    }
    var st := TestMutant(c, asts, disk, lock, m);
    assert forall f :: 0 <= f < |asts| ==> asts[f][..] == old(asts[f][..]);
    v := if st == None then None else Some(Verdict(m, st.value));
  }

  /** The loop over all mutants reports exactly a sequential verdict list of those whose file is
      there, and leaves ASTs and directory as they were. */
  method RunSequentially(c: Config, asts: seq<array<Token>>, disk: Disk, lock: FileLock, ms: seq<Mutant>)
    returns (vs: seq<Verdict>)
    requires TestsTerminate(c) && AllParsed(c, asts) && disk.files == c.source && !lock.locked
    requires forall m :: m in ms ==> HasNode(c, m.file, m.node)
    modifies disk, lock, asts
    ensures IsSequential(c, Present(c, ms), vs)
    ensures disk.files == c.source && !lock.locked && AllParsed(c, asts)
  {
    vs := [];
    for i := 0 to |ms|
      invariant IsSequential(c, Present(c, ms[..i]), vs)
      invariant disk.files == c.source && !lock.locked && AllParsed(c, asts)
    {
      assert ms[i] in ms;
      var v := RunExecutor(c, asts, disk, lock, ms[i]);
      assert ms[..i + 1][..i] == ms[..i];
      if v.Some? {
        vs := vs + [v.value];
      }
    }
    assert ms[..|ms|] == ms;
  }
}
