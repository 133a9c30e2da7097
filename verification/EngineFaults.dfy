/** What failed writes and failed rollbacks do to later tests: exactly when a test still runs
    on the source tree with its own mutant alone. */
module EngineFaults {
  import opened Mutation
  import opened EngineModel
  import opened EngineMemory

  // ---- What is printed ----

  predicate FileClean(failed: seq<Mutant>, f: nat) {
    forall m :: m in failed ==> m.file != f
  }

  lemma CleanFileIsParsed(c: Config, failed: seq<Mutant>, f: nat)
    requires f < |c.files| && FileClean(failed, f)
    ensures TokensAfter(c, failed, f) == Parsed(c, f)
  {
    forall i | 0 <= i < |c.files[f].nodes| ensures TokensAfter(c, failed, f)[i] == Parsed(c, f)[i] {
      UnfailedIsParsed(c, failed, f, i);
    }
  }

  /** Every other node of m's file is back to its parsed token, and the token found on m's own
      node has the replacement its parsed token has. */
  ghost predicate TokensFoldBack(c: Config, failed: seq<Mutant>, m: Mutant)
    requires HasNode(c, m.file, m.node)
  {
    && (forall i :: 0 <= i < |c.files[m.file].nodes| && i != m.node ==>
          TokenAfter(c, failed, m.file, i) == c.files[m.file].nodes[i].tok)
    && Replacement(m.kind, TokenAfter(c, failed, m.file, m.node))
       == Replacement(m.kind, c.files[m.file].nodes[m.node].tok)
  }

  /** After any failed writes the printer gets the mutant applied alone iff the tokens of its
      file fold back. */
  lemma PrintIsOwnMutantIff(c: Config, failed: seq<Mutant>, m: Mutant)
    requires HasNode(c, m.file, m.node)
    ensures PrintedTokens(c, failed, m) == MutatedTokens(c, m) <==> TokensFoldBack(c, failed, m)
  {
    var printed, alone := PrintedTokens(c, failed, m), MutatedTokens(c, m);
    if printed == alone {
      forall i | 0 <= i < |c.files[m.file].nodes| && i != m.node
        ensures TokenAfter(c, failed, m.file, i) == c.files[m.file].nodes[i].tok
      {
        assert printed[i] == alone[i];
      }
      assert printed[m.node] == alone[m.node];
    }
    if TokensFoldBack(c, failed, m) {
      assert forall i :: 0 <= i < |printed| ==> printed[i] == alone[i];
    }
  }

  // ---- What is tested ----

  /** The foreign content of a directory is no different from the source, save in the file the
      mutant overwrites. */
  ghost predicate DamageIsHidden(c: Config, m: Mutant, damage: Tree) {
    forall p :: p in damage && p != WorkPath(c, m) ==> p in c.source && damage[p] == c.source[p]
  }

  /** A test runs on the source tree with its own mutant alone iff the printed text is that of
      the mutant alone and all foreign content is hidden. */
  lemma TestIsAloneIff(c: Config, m: Mutant, x: Setting)
    requires HasNode(c, m.file, m.node)
    ensures TestedTree(c, m, x) == AloneTree(c, m)
       <==> c.render(m.file, PrintedTokens(c, x.failed, m)) == MutantText(c, m) && DamageIsHidden(c, m, x.damage)
  {
    var tested, alone, path := TestedTree(c, m, x), AloneTree(c, m), WorkPath(c, m);
    if tested == alone {
      assert tested[path] == alone[path];
      forall p | p in x.damage && p != path ensures p in c.source && x.damage[p] == c.source[p] {
        assert p in tested && p in alone && tested[p] == alone[p];
      }
    }
    if c.render(m.file, PrintedTokens(c, x.failed, m)) == MutantText(c, m) && DamageIsHidden(c, m, x.damage) {
      assert tested == alone;
    }
  }

  // ---- What a verdict is worth ----

  ghost predicate Alone(c: Config, m: Mutant, x: Setting) {
    HasNode(c, m.file, m.node) && TestedTree(c, m, x) == AloneTree(c, m)
  }

  /** The mutant was not tested, or was tested alone. */
  ghost predicate Undisturbed(c: Config, r: Result) {
    r.setting.Some? ==> Alone(c, r.mutant, r.setting.value)
  }

  lemma UndisturbedIsFinal(c: Config, r: Result)
    requires IsVerdict(c, r.mutant, r.status, r.setting) && Undisturbed(c, r)
    ensures IsFinal(c, r.mutant, r.status)
  {
  }

  type Suite = (Tree, string) -> set<TestEnd>

  /** Whatever the test suite, a verdict on m in setting x is one m gets alone. */
  ghost predicate AlwaysRight(c: Config, m: Mutant, x: Setting) {
    forall suite: Suite, st ::
      IsVerdict(c.(outcomes := suite), m, st, Some(x)) ==> IsFinal(c.(outcomes := suite), m, st)
  }

  /** Kills the mutant applied alone and passes everything else. */
  ghost function KillsOnly(d: Tree): Suite {
    (t: Tree, target: string) => if t == d then {Exit(1)} else {NoExitError}
  }

  lemma SameMeaning(c: Config, suite: Suite, m: Mutant, x: Setting)
    requires HasNode(c, m.file, m.node)
    ensures TestedTree(c.(outcomes := suite), m, x) == TestedTree(c, m, x)
    ensures AloneTree(c.(outcomes := suite), m) == AloneTree(c, m)
  {
    var c' := c.(outcomes := suite);
    SameTokens(c, c', x.failed, m.file);
    SameToken(c, c', x.failed, m.file, m.node);
    assert PrintedTokens(c', x.failed, m) == PrintedTokens(c, x.failed, m);
    assert MutatedTokens(c', m) == MutatedTokens(c, m);
  }

  lemma SameTokens(c: Config, c': Config, failed: seq<Mutant>, f: nat)
    requires c'.files == c.files && f < |c.files|
    ensures TokensAfter(c', failed, f) == TokensAfter(c, failed, f)
  {
    forall i | 0 <= i < |c.files[f].nodes| ensures TokenAfter(c', failed, f, i) == TokenAfter(c, failed, f, i) {
      SameToken(c, c', failed, f, i);
    }
  }

  lemma {:induction false} SameToken(c: Config, c': Config, failed: seq<Mutant>, f: nat, i: nat)
    requires c'.files == c.files && HasNode(c, f, i)
    ensures TokenAfter(c', failed, f, i) == TokenAfter(c, failed, f, i)
  {
    if |failed| > 0 {
      SameToken(c, c', failed[..|failed| - 1], f, i);
    }
  }

  /** A tree that is not the mutant alone misleads some test suite: a mutant that it kills
      comes back as lived. */
  lemma OtherTreesMislead(c: Config, m: Mutant, x: Setting)
    requires HasNode(c, m.file, m.node) && !SkipsTests(c, m) && TestedTree(c, m, x) != AloneTree(c, m)
    ensures !AlwaysRight(c, m, x)
  {
    var suite := KillsOnly(AloneTree(c, m));
    var c' := c.(outcomes := suite);
    SameMeaning(c, suite, m, x);
    assert NoExitError in c'.outcomes(TestedTree(c', m, x), TestTarget(c', m)) && Lived == TestStatus(NoExitError);
    assert IsVerdict(c', m, Lived, Some(x));
    assert !IsFinal(c', m, Lived);
  }

  /** The verdict of a test can be relied on, for every test suite, iff the test ran on the
      source tree with its own mutant alone. */
  lemma AlwaysRightIffAlone(c: Config, m: Mutant, x: Setting)
    requires HasNode(c, m.file, m.node) && !SkipsTests(c, m)
    ensures AlwaysRight(c, m, x) <==> TestedTree(c, m, x) == AloneTree(c, m)
  {
    if TestedTree(c, m, x) == AloneTree(c, m) {
      forall suite: Suite, st | IsVerdict(c.(outcomes := suite), m, st, Some(x))
        ensures IsFinal(c.(outcomes := suite), m, st)
      {
        SameMeaning(c, suite, m, x);
      }
    } else {
      OtherTreesMislead(c, m, x);
    }
  }

  /** No failed write of the file's own nodes before the write, and no foreign content outside
      the file: the mutant is tested alone. */
  lemma LocalIsAlone(c: Config, m: Mutant, x: Setting)
    requires HasNode(c, m.file, m.node) && FileClean(x.failed, m.file) && x.damage.Keys <= {WorkPath(c, m)}
    ensures Alone(c, m, x)
  {
    CleanFileIsParsed(c, x.failed, m.file);
    assert PrintedTokens(c, x.failed, m) == MutatedTokens(c, m) by {
      assert TokenAfter(c, x.failed, m.file, m.node) == TokensAfter(c, x.failed, m.file)[m.node];
    }
    TestIsAloneIff(c, m, x);
  }
}
