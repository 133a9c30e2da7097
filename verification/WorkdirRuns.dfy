/** Concurrent calls of CachedDealer.Get, with Clean at any time. Get looks an identifier up
    under a read lock, makes and fills a directory without any lock, and stores it under a
    write lock; each of these is one step here. (internal/engine/workdir/workdir.go:71-122) */
module WorkdirRuns {
  import opened Mutation
  import WorkerPool

  /** A directory made by MkdirTemp; serial numbers them by creation, because a name can be
      used again after its directory was removed. */
  datatype Folder = Folder(path: Path, serial: nat)

  /** Program points of one call of Get. */
  datatype Caller =
    | Idle
    | Looking(idf: string)
    | Making(idf: string)
    | Copying(idf: string, folder: Folder)
    | Storing(idf: string, folder: Folder)

  /** generation counts the calls of Clean before the answer. */
  datatype Answer = Answer(idf: string, folder: Folder, generation: nat)

  /** existing are the directories on disk; made and generation count the directories made and
      the calls of Clean; answers records what calls have returned. */
  datatype State = State(
    callers: seq<Caller>,
    cache: map<string, Folder>,
    existing: set<Path>,
    made: nat,
    generation: nat,
    answers: set<Answer>)

  /** stuck are the directories that Clean fails to remove. */
  datatype Action =
    | Call(idf: string) | Look | Make(dir: Path) | MakeFails | Copy | CopyFails | Store
    | Clean(stuck: set<Path>)

  ghost function Init(n: nat, existing: set<Path>): State {
    State(seq(n, _ => Idle), map[], existing, 0, 0, {})
  }

  ghost predicate Enabled(s: State, t: nat, a: Action) {
    a.Clean? || (t < |s.callers| &&
    match a
    case Call(_) => s.callers[t].Idle?
    case Look => s.callers[t].Looking?
    case Make(dir) => s.callers[t].Making? && dir !in s.existing
    case MakeFails => s.callers[t].Making?
    case Copy => s.callers[t].Copying?
    case CopyFails => s.callers[t].Copying?
    case Store => s.callers[t].Storing?
    case Clean(_) => true)
  }

  ghost function CachedPaths(s: State): set<Path> {
    set idf | idf in s.cache :: s.cache[idf].path
  }

  ghost function Next(s: State, t: nat, a: Action): State
    requires Enabled(s, t, a)
  {
    match a
    case Call(idf) => s.(callers := s.callers[t := Looking(idf)])
    case Look =>
      var idf := s.callers[t].idf;
      if idf in s.cache
      then s.(callers := s.callers[t := Idle], answers := s.answers + {Answer(idf, s.cache[idf], s.generation)})
      else s.(callers := s.callers[t := Making(idf)])
    case Make(dir) =>
      s.(callers := s.callers[t := Copying(s.callers[t].idf, Folder(dir, s.made))], existing := s.existing + {dir},
         made := s.made + 1)
    case MakeFails => s.(callers := s.callers[t := Idle])
    case Copy => s.(callers := s.callers[t := Storing(s.callers[t].idf, s.callers[t].folder)])
    case CopyFails => s.(callers := s.callers[t := Idle])
    case Store =>
      var c := s.callers[t];
      s.(callers := s.callers[t := Idle], cache := s.cache[c.idf := c.folder],
         answers := s.answers + {Answer(c.idf, c.folder, s.generation)})
    case Clean(stuck) =>
      s.(cache := map[], existing := s.existing - (CachedPaths(s) - stuck), generation := s.generation + 1)
  }

  ghost predicate Step(s: State, s': State) {
    exists t: nat, a :: Enabled(s, t, a) && s' == Next(s, t, a)
  }

  ghost predicate StepAt(run: seq<State>, i: nat)
    requires i + 1 < |run|
  {
    Step(run[i], run[i + 1])
  }

  ghost predicate IsRun(n: nat, existing: set<Path>, run: seq<State>) {
    && run != []
    && run[0] == Init(n, existing)
    && forall i: nat :: i + 1 < |run| ==> StepAt(run, i)
  }

  // ---- What holds on every run, whoever calls ----

  predicate Fills(c: Caller) { c.Copying? || c.Storing? }

  /** Directories being filled exist, are not given out, and are all different. */
  ghost predicate FillersOk(s: State) {
    && (forall t :: 0 <= t < |s.callers| && Fills(s.callers[t]) ==>
          s.callers[t].folder.path in s.existing && s.callers[t].folder.serial < s.made)
    && (forall t, u | 0 <= t < u < |s.callers| && Fills(s.callers[t]) && Fills(s.callers[u]) ::
          s.callers[t].folder.path != s.callers[u].folder.path
          && s.callers[t].folder.serial != s.callers[u].folder.serial)
    && (forall t, x :: 0 <= t < |s.callers| && Fills(s.callers[t]) && x in s.answers ==>
          x.folder.serial != s.callers[t].folder.serial)
    && (forall t, x :: 0 <= t < |s.callers| && Fills(s.callers[t]) && x in s.answers && x.generation == s.generation ==>
          x.folder.path != s.callers[t].folder.path)
  }

  /** A directory is given out for one identifier and in one generation. */
  ghost predicate AnswersOk(s: State) {
    && (forall x :: x in s.answers ==> x.folder.serial < s.made && x.generation <= s.generation)
    && (forall x :: x in s.answers && x.generation == s.generation ==> x.folder.path in s.existing)
    && (forall x, y :: x in s.answers && y in s.answers && x.folder.serial == y.folder.serial ==> x == y)
    && (forall x, y | x in s.answers && y in s.answers && x.generation == y.generation ::
          x.folder.path == y.folder.path ==> x == y)
  }

  /** What is cached was given out in this generation. */
  ghost predicate CacheOk(s: State) {
    forall idf :: idf in s.cache ==> Answer(idf, s.cache[idf], s.generation) in s.answers
  }

  ghost predicate Inv(s: State) {
    FillersOk(s) && AnswersOk(s) && CacheOk(s)
  }

  /** A caller that takes up no new directory. */
  lemma CallerMoves(s: State, t: nat, c: Caller)
    requires Inv(s) && t < |s.callers|
    requires Fills(c) ==> Fills(s.callers[t]) && c.folder == s.callers[t].folder
    ensures Inv(s.(callers := s.callers[t := c]))
  {
  }

  /** A hit repeats an answer of this generation. */
  lemma LookStep(s: State, t: nat)
    requires Inv(s) && Enabled(s, t, Look)
    ensures Inv(Next(s, t, Look))
    ensures Next(s, t, Look).answers == s.answers
  {
    var idf := s.callers[t].idf;
    if idf in s.cache {
      assert s.answers + {Answer(idf, s.cache[idf], s.generation)} == s.answers;
      CallerMoves(s, t, Idle);
    } else {
      CallerMoves(s, t, Making(idf));
    }
  }

  lemma MakeStep(s: State, t: nat, dir: Path)
    requires Inv(s) && Enabled(s, t, Make(dir))
    ensures Inv(Next(s, t, Make(dir)))
  {
  }

  lemma StoreKeepsFillers(s: State, t: nat)
    requires Inv(s) && Enabled(s, t, Store)
    ensures FillersOk(Next(s, t, Store))
  {
  }

  lemma StoreKeepsAnswers(s: State, t: nat)
    requires Inv(s) && Enabled(s, t, Store)
    ensures AnswersOk(Next(s, t, Store))
  {
  }

  lemma StoreStep(s: State, t: nat)
    requires Inv(s) && Enabled(s, t, Store)
    ensures Inv(Next(s, t, Store))
  {
    StoreKeepsFillers(s, t);
    StoreKeepsAnswers(s, t);
  }

  /** Clean removes no directory that is being filled. */
  lemma CleanStep(s: State, t: nat, stuck: set<Path>)
    requires Inv(s)
    ensures Inv(Next(s, t, Clean(stuck)))
  {
    var s' := Next(s, t, Clean(stuck));
    forall u | 0 <= u < |s.callers| && Fills(s.callers[u]) ensures s.callers[u].folder.path in s'.existing {
      forall idf | idf in s.cache ensures s.cache[idf].path != s.callers[u].folder.path {
        assert Answer(idf, s.cache[idf], s.generation) in s.answers;
      }
    }
  }

  lemma InvStep(s: State, t: nat, a: Action)
    requires Inv(s) && Enabled(s, t, a)
    ensures Inv(Next(s, t, a))
  {
    match a
    case Look => LookStep(s, t);
    case Make(dir) => MakeStep(s, t, dir);
    case Store => StoreStep(s, t);
    case Clean(stuck) => CleanStep(s, t, stuck);
    case Copy => CallerMoves(s, t, Storing(s.callers[t].idf, s.callers[t].folder));
    case Call(idf) => CallerMoves(s, t, Looking(idf));
    case _ => CallerMoves(s, t, Idle);
  }

  lemma StepBetween(n: nat, existing: set<Path>, run: seq<State>, k: nat) returns (t: nat, a: Action)
    requires IsRun(n, existing, run) && k + 1 < |run|
    ensures Enabled(run[k], t, a) && run[k + 1] == Next(run[k], t, a)
  {
    assert StepAt(run, k);
    t, a :| Enabled(run[k], t, a) && run[k + 1] == Next(run[k], t, a);
  }

  lemma {:induction false} RunKeepsInv(n: nat, existing: set<Path>, run: seq<State>, k: nat)
    requires IsRun(n, existing, run) && k < |run|
    ensures Inv(run[k])
  {
    if k > 0 {
      RunKeepsInv(n, existing, run, k - 1);
      var t, a := StepBetween(n, existing, run, k - 1);
      InvStep(run[k - 1], t, a);
    }
  }

  /** On every run: different identifiers never get one directory between two calls of Clean,
      and no directory given out before a Clean is given out after it. */
  lemma DirectoriesAreNeverShared(n: nat, existing: set<Path>, run: seq<State>, x: Answer, y: Answer)
    requires IsRun(n, existing, run)
    requires x in run[|run| - 1].answers && y in run[|run| - 1].answers
    ensures x.generation == y.generation && x.idf != y.idf ==> x.folder.path != y.folder.path
    ensures x.generation != y.generation ==> x.folder.serial != y.folder.serial
    ensures x.folder.serial == y.folder.serial ==> x == y
  {
    RunKeepsInv(n, existing, run, |run| - 1);
  }

  /** Clean forgets every directory and removes those it can, and no directory being filled. */
  lemma CleanRemovesWhatIsCached(n: nat, existing: set<Path>, run: seq<State>, t: nat, stuck: set<Path>)
    requires IsRun(n, existing, run)
    ensures var s, s' := run[|run| - 1], Next(run[|run| - 1], t, Clean(stuck));
            && s'.cache == map[] && s'.callers == s.callers
            && (forall idf :: idf in s.cache && s.cache[idf].path !in stuck ==> s.cache[idf].path !in s'.existing)
            && (forall p :: p in s.existing && p !in s'.existing ==>
                  exists idf :: idf in s.cache && s.cache[idf].path == p)
            && (forall u :: 0 <= u < |s.callers| && Fills(s.callers[u]) ==> s.callers[u].folder.path in s'.existing)
  {
    RunKeepsInv(n, existing, run, |run| - 1);
    CleanStep(run[|run| - 1], t, stuck);
  }

  // ---- When an identifier keeps its directory ----

  /** Between two calls of Clean every identifier gets one directory only. */
  ghost predicate OneEach(s: State) {
    forall x, y :: x in s.answers && y in s.answers && x.generation == y.generation && x.idf == y.idf ==> x == y
  }

  /** Caller t stores a directory for an identifier that has got one meanwhile. */
  ghost predicate Overwrites(s: State, t: nat) {
    t < |s.callers| && s.callers[t].Storing? && s.callers[t].idf in s.cache
  }

  ghost predicate OverwritesAt(run: seq<State>, k: nat)
    requires k + 1 < |run|
  {
    exists t: nat :: Overwrites(run[k], t) && run[k + 1] == Next(run[k], t, Store)
  }

  /** In this generation the answers are the cache. */
  ghost predicate AnswersAreCached(s: State) {
    forall x :: x in s.answers && x.generation == s.generation ==> x.idf in s.cache && s.cache[x.idf] == x.folder
  }

  lemma OneEachStep(s: State, t: nat, a: Action)
    requires Inv(s) && Enabled(s, t, a) && OneEach(s) && AnswersAreCached(s)
    requires a.Store? ==> !Overwrites(s, t)
    ensures OneEach(Next(s, t, a)) && AnswersAreCached(Next(s, t, a))
  {
  }

  /** A second directory for a cached identifier is a second answer for it. */
  lemma OverwritingAnswersTwice(s: State, t: nat)
    requires Inv(s) && Overwrites(s, t)
    ensures !OneEach(Next(s, t, Store))
  {
    var c, s' := s.callers[t], Next(s, t, Store);
    var x, y := Answer(c.idf, s.cache[c.idf], s.generation), Answer(c.idf, c.folder, s.generation);
    assert x in s.answers && x in s'.answers && y in s'.answers;
    assert x.folder.serial != y.folder.serial;
  }

  lemma AnswersStay(s: State, s': State)
    requires Step(s, s')
    ensures s.answers <= s'.answers
  {
  }

  lemma {:induction false} TwiceStaysTwice(run: seq<State>, i: nat, j: nat)
    requires i <= j < |run| && !OneEach(run[i]) && forall k: nat :: k + 1 < |run| ==> StepAt(run, k)
    ensures !OneEach(run[j])
    decreases j - i
  {
    if i < j {
      TwiceStaysTwice(run, i, j - 1);
      assert StepAt(run, j - 1);
      AnswersStay(run[j - 1], run[j]);
    }
  }

  lemma {:induction false} NoOverwriteKeepsOneEach(n: nat, existing: set<Path>, run: seq<State>, k: nat)
    requires IsRun(n, existing, run) && k < |run|
    requires forall i: nat :: i + 1 < |run| ==> !OverwritesAt(run, i)
    ensures OneEach(run[k]) && AnswersAreCached(run[k])
  {
    if k > 0 {
      NoOverwriteKeepsOneEach(n, existing, run, k - 1);
      RunKeepsInv(n, existing, run, k - 1);
      var t, a := StepBetween(n, existing, run, k - 1);
      assert !OverwritesAt(run, k - 1);
      OneEachStep(run[k - 1], t, a);
    }
  }

  lemma OverwriteIsTwice(run: seq<State>, i: nat)
    requires i + 1 < |run| && OverwritesAt(run, i) && Inv(run[i])
    ensures !OneEach(run[i + 1])
  {
    var t: nat :| Overwrites(run[i], t) && run[i + 1] == Next(run[i], t, Store);
    OverwritingAnswersTwice(run[i], t);
  }

  lemma OverwriteEndsOneEach(n: nat, existing: set<Path>, run: seq<State>, i: nat)
    requires IsRun(n, existing, run) && i + 1 < |run| && OverwritesAt(run, i)
    ensures !OneEach(run[|run| - 1])
  {
    RunKeepsInv(n, existing, run, i);
    OverwriteIsTwice(run, i);
    TwiceStaysTwice(run, i + 1, |run| - 1);
  }

  /** Over a whole run every identifier gets one directory between two calls of Clean iff no call
      stores over an identifier that has been cached since it was looked up. */
  lemma OneDirectoryPerIdentifierIff(n: nat, existing: set<Path>, run: seq<State>)
    requires IsRun(n, existing, run)
    ensures OneEach(run[|run| - 1]) <==> forall i: nat :: i + 1 < |run| ==> !OverwritesAt(run, i)
  {
    if i: nat :| i + 1 < |run| && OverwritesAt(run, i) {
      OverwriteEndsOneEach(n, existing, run, i);
    } else {
      NoOverwriteKeepsOneEach(n, existing, run, |run| - 1);
    }
  }

  // ---- What callers have to keep ----

  predicate PastLookup(c: Caller) { c.Making? || Fills(c) }

  /** No two calls are past a missed lookup of one identifier. Calls for a cached identifier
      may overlap. */
  ghost predicate Exclusive(s: State) {
    forall t, u | 0 <= t < u < |s.callers| && PastLookup(s.callers[t]) && PastLookup(s.callers[u]) ::
      s.callers[t].idf != s.callers[u].idf
  }

  ghost predicate MissesAreUncached(s: State) {
    forall t :: 0 <= t < |s.callers| && PastLookup(s.callers[t]) ==> s.callers[t].idf !in s.cache
  }

  lemma MissesStep(s: State, t: nat, a: Action)
    requires Exclusive(s) && MissesAreUncached(s) && Enabled(s, t, a)
    ensures MissesAreUncached(Next(s, t, a))
  {
  }

  lemma {:induction false} ExclusiveMissesStay(n: nat, existing: set<Path>, run: seq<State>, k: nat)
    requires IsRun(n, existing, run) && k < |run| && forall i :: 0 <= i < |run| ==> Exclusive(run[i])
    ensures MissesAreUncached(run[k])
  {
    if k > 0 {
      ExclusiveMissesStay(n, existing, run, k - 1);
      var t, a := StepBetween(n, existing, run, k - 1);
      MissesStep(run[k - 1], t, a);
    }
  }

  /** While no two calls are past a missed lookup of one identifier: between two calls of Clean
      one identifier always gets one directory and different ones different ones, and after a
      Clean every directory is a new one. */
  lemma OneDirectoryPerIdentifier(n: nat, existing: set<Path>, run: seq<State>, x: Answer, y: Answer)
    requires IsRun(n, existing, run) && forall i :: 0 <= i < |run| ==> Exclusive(run[i])
    requires x in run[|run| - 1].answers && y in run[|run| - 1].answers
    ensures x.generation == y.generation ==> (x.idf == y.idf <==> x.folder.path == y.folder.path)
    ensures x.folder.serial == y.folder.serial <==> x.generation == y.generation && x.idf == y.idf
  {
    RunKeepsInv(n, existing, run, |run| - 1);
    forall i: nat | i + 1 < |run| ensures !OverwritesAt(run, i) {
      ExclusiveMissesStay(n, existing, run, i);
    }
    OneDirectoryPerIdentifierIff(n, existing, run);
  }

  /** The premise cannot be dropped: from any state of a run in which two calls are past a
      missed lookup of one identifier, the run can go on to two directories for it. */
  lemma OverlappingMissesCanDiverge(n: nat, existing: set<Path>, run: seq<State>, t: nat, u: nat)
    returns (longer: seq<State>)
    requires IsRun(n, existing, run)
    requires var s := run[|run| - 1];
             t < u < |s.callers| && PastLookup(s.callers[t]) && PastLookup(s.callers[u])
             && s.callers[t].idf == s.callers[u].idf
    ensures IsRun(n, existing, longer) && run <= longer && !OneEach(longer[|longer| - 1])
  {
    longer := BothStoring(n, existing, run, t, u);
    longer := Extend(n, existing, longer, t, Store);
    longer := OverwriteNext(n, existing, longer, u);
  }

  lemma OverwriteNext(n: nat, existing: set<Path>, run: seq<State>, u: nat) returns (longer: seq<State>)
    requires IsRun(n, existing, run) && Overwrites(run[|run| - 1], u)
    ensures IsRun(n, existing, longer) && run <= longer && !OneEach(longer[|longer| - 1])
  {
    RunKeepsInv(n, existing, run, |run| - 1);
    OverwritingAnswersTwice(run[|run| - 1], u);
    longer := Extend(n, existing, run, u, Store);
  }

  lemma BothStoring(n: nat, existing: set<Path>, run: seq<State>, t: nat, u: nat) returns (longer: seq<State>)
    requires IsRun(n, existing, run)
    requires var s := run[|run| - 1];
             t < u < |s.callers| && PastLookup(s.callers[t]) && PastLookup(s.callers[u])
             && s.callers[t].idf == s.callers[u].idf
    ensures IsRun(n, existing, longer) && run <= longer
    ensures var s := longer[|longer| - 1];
            t < u < |s.callers| && s.callers[t].Storing? && s.callers[u].Storing?
            && s.callers[t].idf == s.callers[u].idf
  {
    longer := ToStoring(n, existing, run, t);
    longer := ToStoring(n, existing, longer, u);
  }

  lemma Extend(n: nat, existing: set<Path>, run: seq<State>, t: nat, a: Action) returns (longer: seq<State>)
    requires IsRun(n, existing, run) && Enabled(run[|run| - 1], t, a)
    ensures IsRun(n, existing, longer) && longer == run + [Next(run[|run| - 1], t, a)]
  {
    longer := run + [Next(run[|run| - 1], t, a)];
    forall i: nat | i + 1 < |longer| ensures StepAt(longer, i) {
      if i + 1 < |run| {
        assert StepAt(run, i);
      } else {
        assert Step(run[|run| - 1], Next(run[|run| - 1], t, a));
      }
    }
  }

  /** One call makes and fills its directory while the others wait. */
  lemma ToStoring(n: nat, existing: set<Path>, run: seq<State>, t: nat) returns (longer: seq<State>)
    requires IsRun(n, existing, run)
    requires t < |run[|run| - 1].callers| && PastLookup(run[|run| - 1].callers[t])
    ensures IsRun(n, existing, longer) && run <= longer
    ensures var s, s' := run[|run| - 1], longer[|longer| - 1];
            && |s'.callers| == |s.callers| && s'.callers == s.callers[t := s'.callers[t]]
            && s'.callers[t].Storing? && s'.callers[t].idf == s.callers[t].idf
  {
    longer := run;
    if longer[|longer| - 1].callers[t].Making? {
      var dir := UnusedName(longer[|longer| - 1].existing);
      longer := Extend(n, existing, longer, t, Make(dir));
    }
    if longer[|longer| - 1].callers[t].Copying? {
      longer := Extend(n, existing, longer, t, Copy);
    }
  }

  /** MkdirTemp never runs out of names. */
  lemma UnusedName(used: set<Path>) returns (name: Path)
    ensures name !in used
  {
    var bound := LongestName(used);
    name := seq(bound + 1, _ => 'x');
    assert |name| > bound;
  }

  lemma {:induction false} LongestName(used: set<Path>) returns (bound: nat)
    ensures forall name :: name in used ==> |name| <= bound
    decreases used
  {
    bound := 0;
    if name :| name in used {
      bound := LongestName(used - {name});
      bound := if |name| > bound then |name| else bound;
      assert used == used - {name} + {name};
    }
  }

  /** Two calls that both miss the cache: a run in which one identifier gets two directories. */
  lemma SimultaneousCallsGetTwoDirectories() returns (run: seq<State>)
    ensures IsRun(2, {}, run) && !OneEach(run[|run| - 1])
  {
    run := [Init(2, {})];
    run := Extend(2, {}, run, 0, Call("w"));
    run := Extend(2, {}, run, 1, Call("w"));
    run := Extend(2, {}, run, 0, Look);
    run := Extend(2, {}, run, 1, Look);
    run := OverlappingMissesCanDiverge(2, {}, run, 0, 1);
  }

  // ---- Callers that are workers of one pool ----

  /** Each caller only asks for its own directory. */
  ghost predicate AsksForItsOwn(pool: string, s: State) {
    forall t :: 0 <= t < |s.callers| && !s.callers[t].Idle? ==> s.callers[t].idf == WorkerPool.WorkerName(pool, t)
  }

  /** Workers never ask for one identifier at the same time. */
  lemma WorkersAreExclusive(pool: string, s: State)
    requires AsksForItsOwn(pool, s)
    ensures Exclusive(s)
  {
    forall t, u | 0 <= t < u < |s.callers| && PastLookup(s.callers[t]) && PastLookup(s.callers[u])
      ensures s.callers[t].idf != s.callers[u].idf
    {
      if s.callers[t].idf == s.callers[u].idf {
        WorkerPool.WorkerNamesDiffer(pool, t, u);
      }
    }
  }

  /** So each worker has one directory of its own between two calls of Clean. */
  lemma WorkersHaveTheirOwnDirectory(n: nat, existing: set<Path>, pool: string, run: seq<State>, x: Answer, y: Answer)
    requires IsRun(n, existing, run) && forall i :: 0 <= i < |run| ==> AsksForItsOwn(pool, run[i])
    requires x in run[|run| - 1].answers && y in run[|run| - 1].answers && x.generation == y.generation
    ensures x.idf == y.idf <==> x.folder.path == y.folder.path
  {
    forall i | 0 <= i < |run| ensures Exclusive(run[i]) {
      WorkersAreExclusive(pool, run[i]);
    }
    OneDirectoryPerIdentifier(n, existing, run, x, y);
  }

  // ---- Get as one step ----

  /** A call returns here, with the directory d. */
  ghost predicate Answers(s: State, t: nat, a: Action, idf: string, d: Folder) {
    Enabled(s, t, a) && (a.Look? || a.Store?) && s.callers[t].idf == idf
    && (if a.Look? then idf in s.cache && d == s.cache[idf] else d == s.callers[t].folder)
  }

  /** On runs with exclusive misses each step is, on the cache, one of three things: nothing, with
      an answer only from the cache; one whole Get, that answers an identifier without a
      directory with one never given out before; or a Clean. */
  lemma GetIsAtomic(n: nat, existing: set<Path>, run: seq<State>, k: nat, t: nat, a: Action)
    requires IsRun(n, existing, run) && forall i :: 0 <= i < |run| ==> Exclusive(run[i])
    requires k < |run| && Enabled(run[k], t, a)
    ensures var s, s' := run[k], Next(run[k], t, a);
            || s'.cache == s.cache
            || (a.Clean? && s'.cache == map[])
            || (exists idf, d :: idf !in s.cache && s'.cache == s.cache[idf := d] && Answers(s, t, a, idf, d)
                                 && forall x :: x in s.answers ==> x.folder.serial != d.serial)
    ensures forall x :: x in Next(run[k], t, a).answers - run[k].answers ==>
              x.idf in Next(run[k], t, a).cache && Next(run[k], t, a).cache[x.idf] == x.folder
  {
    RunKeepsInv(n, existing, run, k);
    ExclusiveMissesStay(n, existing, run, k);
    if a.Store? {
      assert Answers(run[k], t, a, run[k].callers[t].idf, run[k].callers[t].folder);
    }
  }
}
