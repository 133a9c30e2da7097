/** The report of a run and its exit gate (internal/report/report.go). Percentages are exact reals. */
module Report {
  import opened Mutation
  import opened Counting

  /** What the report reads of a mutant. */
  datatype Entry = Entry(pos: Position, kind: Kind, status: Status)

  datatype FileMutation = FileMutation(line: int, column: int, kind: Kind, status: Status)

  datatype Statistics = Statistics(
    arithmeticBase: nat, conditionalsBoundary: nat, conditionalsNegation: nat, incrementDecrement: nat,
    invertAssignments: nat, invertBitwise: nat, invertBitwiseAssignments: nat, invertLogical: nat,
    invertLoopCtrl: nat, invertNegatives: nat, removeSelfAssignments: nat)
  {
    function Of(kind: Kind): nat {
      match kind
      case ArithmeticBase => arithmeticBase
      case ConditionalsBoundary => conditionalsBoundary
      case ConditionalsNegation => conditionalsNegation
      case IncrementDecrement => incrementDecrement
      case InvertAssignments => invertAssignments
      case InvertBitwise => invertBitwise
      case InvertBitwiseAssignments => invertBitwiseAssignments
      case InvertLogical => invertLogical
      case InvertLoopCtrl => invertLoopCtrl
      case InvertNegatives => invertNegatives
      case RemoveSelfAssignments => removeSelfAssignments
    }

    function Increment(kind: Kind): Statistics {
      match kind
      case ArithmeticBase => this.(arithmeticBase := arithmeticBase + 1)
      case ConditionalsNegation => this.(conditionalsNegation := conditionalsNegation + 1)
      case ConditionalsBoundary => this.(conditionalsBoundary := conditionalsBoundary + 1)
      case IncrementDecrement => this.(incrementDecrement := incrementDecrement + 1)
      case InvertAssignments => this.(invertAssignments := invertAssignments + 1)
      case InvertBitwiseAssignments => this.(invertBitwiseAssignments := invertBitwiseAssignments + 1)
      case InvertBitwise => this.(invertBitwise := invertBitwise + 1)
      case InvertLogical => this.(invertLogical := invertLogical + 1)
      case InvertLoopCtrl => this.(invertLoopCtrl := invertLoopCtrl + 1)
      case InvertNegatives => this.(invertNegatives := invertNegatives + 1)
      case RemoveSelfAssignments => this.(removeSelfAssignments := removeSelfAssignments + 1)
    }
  }

  datatype ExitError = EfficacyThreshold | MutantCoverageThreshold

  /** A threshold as configured: the float reading, and the integer reading used when the
      float one is zero. */
  datatype Threshold = Threshold(asReal: real, asInt: int) {
    function Value(): real { if asReal == 0.0 then asInt as real else asReal }
  }

  // ---- Specification ----

  function HasStatus(st: Status): Entry -> bool { (m: Entry) => m.status == st }

  function HasKind(kind: Kind): Entry -> bool { (m: Entry) => m.kind == kind }

  function IsIn(name: Path): Entry -> bool { (m: Entry) => m.pos.filename == name }

  function Reports(name: Path, fm: FileMutation): Entry -> bool {
    (m: Entry) => m.pos.filename == name && MutationOf(m) == fm
  }

  function StatusCount(ms: seq<Entry>, st: Status): nat { CountIf(ms, HasStatus(st)) }

  function KindCount(ms: seq<Entry>, kind: Kind): nat { CountIf(ms, HasKind(kind)) }

  function MutationOf(m: Entry): FileMutation {
    FileMutation(m.pos.line, m.pos.column, m.kind, m.status)
  }

  /** The mutations listed for one file, in the order of collection. */
  function FileList(ms: seq<Entry>, name: Path): seq<FileMutation> {
    if |ms| == 0 then []
    else
      var last := ms[|ms| - 1];
      FileList(ms[..|ms| - 1], name) + if last.pos.filename == name then [MutationOf(last)] else []
  }

  /** a of b, in percent. */
  function Percent(a: nat, b: nat): real
    requires b > 0
  {
    a as real / b as real * 100.0
  }

  function EfficacyOf(killed: nat, lived: nat, dryRun: bool): real {
    if !dryRun && killed > 0 then Percent(killed, killed + lived) else 0.0
  }

  /** Of the mutants that were, or in a dry run would be, put to the test. */
  function CoverageOf(tested: nat, notCovered: nat): real {
    if tested > 0 then Percent(tested, tested + notCovered) else 0.0
  }

  function Efficacy(ms: seq<Entry>, dryRun: bool): real {
    EfficacyOf(StatusCount(ms, Killed), StatusCount(ms, Lived), dryRun)
  }

  function MutantCoverage(ms: seq<Entry>, dryRun: bool): real {
    CoverageOf(if dryRun then StatusCount(ms, Runnable) else StatusCount(ms, Killed) + StatusCount(ms, Lived),
               StatusCount(ms, NotCovered))
  }

  /** The gate: a positive threshold must be exceeded, efficacy first. */
  function Gate(efficacy: real, coverage: real, et: Threshold, ct: Threshold, dryRun: bool): Option<ExitError> {
    if dryRun then None
    else if et.Value() > 0.0 && efficacy <= et.Value() then Some(EfficacyThreshold)
    else if ct.Value() > 0.0 && coverage <= ct.Value() then Some(MutantCoverageThreshold)
    else None
  }

  /** The exit error of a whole result list; an empty one is not assessed. */
  function ExitOf(ms: seq<Entry>, et: Threshold, ct: Threshold, dryRun: bool): Option<ExitError> {
    if ms == [] then None else Gate(Efficacy(ms, dryRun), MutantCoverage(ms, dryRun), et, ct, dryRun)
  }

  lemma OneMoreStatus(before: seq<Entry>, m: Entry)
    ensures forall st :: StatusCount(before + [m], st) == StatusCount(before, st) + if m.status == st then 1 else 0
  {
    assert (before + [m])[..|before + [m]| - 1] == before;
  }

  lemma IncrementMovesOne(s: Statistics, kind: Kind, k: Kind)
    ensures s.Increment(kind).Of(k) == s.Of(k) + if k == kind then 1 else 0
  {
  }

  lemma OneMoreKind(before: seq<Entry>, m: Entry, kind: Kind)
    ensures KindCount(before + [m], kind) == KindCount(before, kind) + if m.kind == kind then 1 else 0
  {
    assert (before + [m])[..|before + [m]| - 1] == before;
  }

  // ---- The report object ----

  class ReportStatus {
    const dryRun: bool
    var files: map<Path, seq<FileMutation>>
    var killed: nat
    var lived: nat
    var timedOut: nat
    var notCovered: nat
    var skipped: nat
    var notViable: nat
    var runnable: nat
    var mutatorStatistics: Statistics
    var tEfficacy: real
    var mCovered: real

    function StatusField(st: Status): nat
      reads `killed, `lived, `timedOut, `notCovered, `skipped, `notViable, `runnable
    {
      match st
      case NotCovered => notCovered
      case Runnable => runnable
      case Skipped => skipped
      case Lived => lived
      case Killed => killed
      case NotViable => notViable
      case TimedOut => timedOut
    }

    ghost predicate ListsFiles(ms: seq<Entry>)
      reads `files
    {
      && (forall name :: name in files <==> FileList(ms, name) != [])
      && (forall name :: name in files ==> files[name] == FileList(ms, name))
    }

    ghost predicate CountsStatuses(ms: seq<Entry>)
      reads `killed, `lived, `timedOut, `notCovered, `skipped, `notViable, `runnable
    {
      forall st :: StatusField(st) == StatusCount(ms, st)
    }

    ghost predicate CountsKinds(ms: seq<Entry>)
      reads `mutatorStatistics
    {
      forall kind :: mutatorStatistics.Of(kind) == KindCount(ms, kind)
    }

    /** The report says of ms what there is to say. */
    ghost predicate Describes(ms: seq<Entry>)
      reads `files, `killed, `lived, `timedOut, `notCovered, `skipped, `notViable, `runnable, `mutatorStatistics
    {
      ListsFiles(ms) && CountsStatuses(ms) && CountsKinds(ms)
    }

    constructor (dryRun: bool)
      ensures Describes([]) && this.dryRun == dryRun && tEfficacy == 0.0 && mCovered == 0.0
    {
      this.dryRun := dryRun;
      files := map[];
      killed, lived, timedOut, notCovered, skipped, notViable, runnable := 0, 0, 0, 0, 0, 0, 0;
      mutatorStatistics := Statistics(0, 0, 0, 0, 0, 0, 0, 0, 0, 0, 0);
      tEfficacy, mCovered := 0.0, 0.0;
    }

    method ReportMutationStatus(m: Entry, ghost before: seq<Entry>)
      requires CountsStatuses(before)
      modifies `killed, `lived, `timedOut, `notCovered, `skipped, `notViable, `runnable
      ensures CountsStatuses(before + [m])
    {
      OneMoreStatus(before, m);
      match m.status
      case Killed => killed := killed + 1;
      case Lived => lived := lived + 1;
      case NotCovered => notCovered := notCovered + 1;
      case Skipped => skipped := skipped + 1;
      case TimedOut => timedOut := timedOut + 1;
      case NotViable => notViable := notViable + 1;
      case Runnable => runnable := runnable + 1;
    }

    method ReportMutatorType(m: Entry, ghost before: seq<Entry>)
      requires CountsKinds(before)
      modifies `mutatorStatistics
      ensures CountsKinds(before + [m])
    {
      ghost var s := mutatorStatistics;
      mutatorStatistics := mutatorStatistics.Increment(m.kind);
      forall kind ensures mutatorStatistics.Of(kind) == KindCount(before + [m], kind) {
        OneMoreKind(before, m, kind);
        IncrementMovesOne(s, m.kind, kind);
      }
    }

    method AppendToFile(m: Entry, ghost before: seq<Entry>)
      requires ListsFiles(before)
      modifies `files
      ensures ListsFiles(before + [m])
    {
      var name := m.pos.filename;
      ghost var after := before + [m];
      assert after[..|after| - 1] == before;
      files := files[name := (if name in files then files[name] else []) + [MutationOf(m)]];
    }

    /** One turn of newReport's loop. */
    method Count(m: Entry, ghost before: seq<Entry>)
      requires Describes(before)
      modifies `files, `killed, `lived, `timedOut, `notCovered, `skipped, `notViable, `runnable, `mutatorStatistics
      ensures Describes(before + [m])
    {
      AppendToFile(m, before);
      ReportMutationStatus(m, before);
      ReportMutatorType(m, before);
    }

    /** newReport's loop. */
    method CountAll(ms: seq<Entry>)
      requires Describes([])
      modifies `files, `killed, `lived, `timedOut, `notCovered, `skipped, `notViable, `runnable, `mutatorStatistics
      ensures Describes(ms)
    {
      for i := 0 to |ms|
        invariant Describes(ms[..i])
      {
        Count(ms[i], ms[..i]);
        assert ms[..i] + [ms[i]] == ms[..i + 1];
      }
      assert ms[..|ms|] == ms;
    }

    method Percentages()
      requires tEfficacy == 0.0 && mCovered == 0.0
      modifies `tEfficacy, `mCovered
      ensures tEfficacy == EfficacyOf(killed, lived, dryRun)
      ensures mCovered == CoverageOf(if dryRun then runnable else killed + lived, notCovered)
    {
      if !dryRun {
        if killed > 0 {
          tEfficacy := Percent(killed, killed + lived);
        }
        if killed + lived > 0 {
          mCovered := Percent(killed + lived, killed + lived + notCovered);
        }
      } else if runnable > 0 {
        mCovered := Percent(runnable, runnable + notCovered);
      }
    }

    method Assess(et: Threshold, ct: Threshold) returns (err: Option<ExitError>)
      ensures err == Gate(tEfficacy, mCovered, et, ct, dryRun)
    {
      if dryRun {
        return None;
      }
      var e := et.asReal;
      if e == 0.0 {
        e := et.asInt as real;
      }
      if e > 0.0 && tEfficacy <= e {
        return Some(EfficacyThreshold);
      }
      var c := ct.asReal;
      if c == 0.0 {
        c := ct.asInt as real;
      }
      if c > 0.0 && mCovered <= c {
        return Some(MutantCoverageThreshold);
      }
      return None;
    }
  }

  method NewReport(ms: seq<Entry>, dryRun: bool) returns (rep: ReportStatus?)
    ensures rep == null <==> ms == []
    ensures rep != null ==> fresh(rep) && rep.dryRun == dryRun && rep.Describes(ms)
    ensures rep != null ==> rep.tEfficacy == Efficacy(ms, dryRun) && rep.mCovered == MutantCoverage(ms, dryRun)
  {
    if |ms| == 0 {
      return null;
    }
    var r := new ReportStatus(dryRun);
    r.CountAll(ms);
    r.Percentages();
    PercentagesOf(r, ms);
    rep := r;
  }

  lemma PercentagesOf(r: ReportStatus, ms: seq<Entry>)
    requires r.CountsStatuses(ms)
    ensures EfficacyOf(r.killed, r.lived, r.dryRun) == Efficacy(ms, r.dryRun)
    ensures CoverageOf(if r.dryRun then r.runnable else r.killed + r.lived, r.notCovered)
         == MutantCoverage(ms, r.dryRun)
  {
    assert r.StatusField(Killed) == StatusCount(ms, Killed) && r.StatusField(Lived) == StatusCount(ms, Lived);
    assert r.StatusField(NotCovered) == StatusCount(ms, NotCovered);
    assert r.StatusField(Runnable) == StatusCount(ms, Runnable);
  }

  /** How many mutants have this status, by their places in the list. */
  ghost function Number(ms: seq<Entry>, st: Status): nat {
    |set i | 0 <= i < |ms| && ms[i].status == st|
  }

  ghost function NumberOfKind(ms: seq<Entry>, kind: Kind): nat {
    |set i | 0 <= i < |ms| && ms[i].kind == kind|
  }

  /** Each counter of a report counts what it is named after. */
  lemma StatusCountersAreNamed(r: ReportStatus, ms: seq<Entry>)
    requires r.CountsStatuses(ms)
    ensures r.killed == Number(ms, Killed) && r.lived == Number(ms, Lived)
    ensures r.timedOut == Number(ms, TimedOut)
    ensures r.notCovered == Number(ms, NotCovered)
    ensures r.skipped == Number(ms, Skipped)
    ensures r.notViable == Number(ms, NotViable)
    ensures r.runnable == Number(ms, Runnable)
  {
    forall st: Status ensures r.StatusField(st) == Number(ms, st) {
      StatusIsNumber(ms, st);
    }
    assert r.StatusField(Killed) == r.killed && r.StatusField(Lived) == r.lived;
    assert r.StatusField(TimedOut) == r.timedOut && r.StatusField(NotCovered) == r.notCovered;
    assert r.StatusField(Skipped) == r.skipped && r.StatusField(NotViable) == r.notViable;
    assert r.StatusField(Runnable) == r.runnable;
  }

  lemma StatusIsNumber(ms: seq<Entry>, st: Status)
    ensures StatusCount(ms, st) == Number(ms, st)
  {
    CountIfIsCardinality(ms, HasStatus(st));
    assert Where(ms, HasStatus(st)) == set i | 0 <= i < |ms| && ms[i].status == st;
  }

  lemma KindIsNumber(ms: seq<Entry>, kind: Kind)
    ensures KindCount(ms, kind) == NumberOfKind(ms, kind)
  {
    CountIfIsCardinality(ms, HasKind(kind));
    assert Where(ms, HasKind(kind)) == set i | 0 <= i < |ms| && ms[i].kind == kind;
  }

  lemma KindCountersAreNamed(r: ReportStatus, ms: seq<Entry>)
    requires r.CountsKinds(ms)
    ensures var k := r.mutatorStatistics;
            && k.arithmeticBase == NumberOfKind(ms, ArithmeticBase)
            && k.conditionalsBoundary == NumberOfKind(ms, ConditionalsBoundary)
            && k.conditionalsNegation == NumberOfKind(ms, ConditionalsNegation)
            && k.incrementDecrement == NumberOfKind(ms, IncrementDecrement)
            && k.invertAssignments == NumberOfKind(ms, InvertAssignments)
            && k.invertBitwise == NumberOfKind(ms, InvertBitwise)
    ensures var k := r.mutatorStatistics;
            && k.invertBitwiseAssignments == NumberOfKind(ms, InvertBitwiseAssignments)
            && k.invertLogical == NumberOfKind(ms, InvertLogical)
            && k.invertLoopCtrl == NumberOfKind(ms, InvertLoopCtrl)
            && k.invertNegatives == NumberOfKind(ms, InvertNegatives)
            && k.removeSelfAssignments == NumberOfKind(ms, RemoveSelfAssignments)
  {
    KindCounter(r, ms, ArithmeticBase);
    KindCounter(r, ms, ConditionalsBoundary);
    KindCounter(r, ms, ConditionalsNegation);
    KindCounter(r, ms, IncrementDecrement);
    KindCounter(r, ms, InvertAssignments);
    KindCounter(r, ms, InvertBitwise);
    KindCounter(r, ms, InvertBitwiseAssignments);
    KindCounter(r, ms, InvertLogical);
    KindCounter(r, ms, InvertLoopCtrl);
    KindCounter(r, ms, InvertNegatives);
    KindCounter(r, ms, RemoveSelfAssignments);
  }

  lemma KindCounter(r: ReportStatus, ms: seq<Entry>, kind: Kind)
    requires r.CountsKinds(ms)
    ensures r.mutatorStatistics.Of(kind) == NumberOfKind(ms, kind)
  {
    KindIsNumber(ms, kind);
  }

  /** The exit error of a run is the gate on its percentages. */
  method Do(ms: seq<Entry>, dryRun: bool, et: Threshold, ct: Threshold) returns (err: Option<ExitError>)
    ensures err == ExitOf(ms, et, ct, dryRun)
  {
    var rep := NewReport(ms, dryRun);
    if rep == null {
      return None;
    }
    err := rep.Assess(et, ct);
  }

  // ---- The report does not depend on the order of collection ----

  /** A file is listed iff some mutant is in it. */
  lemma {:induction false} FileListMembers(ms: seq<Entry>, name: Path)
    ensures FileList(ms, name) != [] <==> exists m :: m in ms && m.pos.filename == name
  {
    if |ms| > 0 {
      var init, last := ms[..|ms| - 1], ms[|ms| - 1];
      FileListMembers(init, name);
      assert ms == init + [last];
      assert forall m :: m in ms <==> m in init || m == last;
    }
  }

  /** The j-th mutation listed for a file is the j-th mutant in it, as the report shows it. */
  lemma {:induction false} FileListShows(ms: seq<Entry>, name: Path)
    ensures var there := Filter(ms, (m: Entry) => m.pos.filename == name);
            && |FileList(ms, name)| == |there|
            && forall j :: 0 <= j < |there| ==>
                 && FileList(ms, name)[j].line == there[j].pos.line
                 && FileList(ms, name)[j].column == there[j].pos.column
                 && FileList(ms, name)[j].kind == there[j].kind
                 && FileList(ms, name)[j].status == there[j].status
  {
    if |ms| > 0 {
      FileListShows(ms[..|ms| - 1], name);
    }
  }

  lemma {:induction false} FileListCounts(ms: seq<Entry>, name: Path, fm: FileMutation)
    ensures multiset(FileList(ms, name))[fm] == CountIf(ms, Reports(name, fm))
    ensures |FileList(ms, name)| == CountIf(ms, IsIn(name))
  {
    if |ms| > 0 {
      FileListCounts(ms[..|ms| - 1], name, fm);
    }
  }

  /** Two collections of the same mutants in any order get the same counters, the same
      mutations per file, the same percentages and the same exit error. */
  lemma ReportIgnoresOrder(a: seq<Entry>, b: seq<Entry>, et: Threshold, ct: Threshold, dryRun: bool)
    requires multiset(a) == multiset(b)
    ensures forall st :: StatusCount(a, st) == StatusCount(b, st)
    ensures forall kind :: KindCount(a, kind) == KindCount(b, kind)
    ensures forall name :: multiset(FileList(a, name)) == multiset(FileList(b, name))
    ensures Efficacy(a, dryRun) == Efficacy(b, dryRun) && MutantCoverage(a, dryRun) == MutantCoverage(b, dryRun)
    ensures ExitOf(a, et, ct, dryRun) == ExitOf(b, et, ct, dryRun)
  {
    forall st ensures StatusCount(a, st) == StatusCount(b, st) {
      CountIfPermuted(a, b, HasStatus(st));
    }
    forall kind ensures KindCount(a, kind) == KindCount(b, kind) {
      CountIfPermuted(a, b, HasKind(kind));
    }
    forall name ensures multiset(FileList(a, name)) == multiset(FileList(b, name)) {
      forall fm ensures multiset(FileList(a, name))[fm] == multiset(FileList(b, name))[fm] {
        FileListCounts(a, name, fm);
        FileListCounts(b, name, fm);
        CountIfPermuted(a, b, Reports(name, fm));
      }
    }
    assert |multiset(a)| == |a| && |multiset(b)| == |b|;
  }

  // ---- Nothing is counted twice or lost ----

  lemma {:induction false} StatusesAddUp(ms: seq<Entry>)
    ensures StatusCount(ms, NotCovered) + StatusCount(ms, Runnable) + StatusCount(ms, Skipped)
            + StatusCount(ms, Lived) + StatusCount(ms, Killed) + StatusCount(ms, NotViable)
            + StatusCount(ms, TimedOut) == |ms|
  {
    if |ms| > 0 {
      StatusesAddUp(ms[..|ms| - 1]);
    }
  }

  lemma {:induction false} KindsAddUp(ms: seq<Entry>)
    ensures KindCount(ms, ArithmeticBase) + KindCount(ms, ConditionalsBoundary)
            + KindCount(ms, ConditionalsNegation) + KindCount(ms, IncrementDecrement)
            + KindCount(ms, InvertAssignments) + KindCount(ms, InvertBitwise)
            + KindCount(ms, InvertBitwiseAssignments) + KindCount(ms, InvertLogical)
            + KindCount(ms, InvertLoopCtrl) + KindCount(ms, InvertNegatives)
            + KindCount(ms, RemoveSelfAssignments) == |ms|
  {
    if |ms| > 0 {
      KindsAddUp(ms[..|ms| - 1]);
    }
  }

  ghost function ListedIn(ms: seq<Entry>, names: seq<Path>): nat {
    if names == [] then 0 else |FileList(ms, names[0])| + ListedIn(ms, names[1..])
  }

  lemma {:induction false} ListedAfterOne(ms: seq<Entry>, m: Entry, names: seq<Path>)
    requires forall i, j :: 0 <= i < j < |names| ==> names[i] != names[j]
    ensures ListedIn(ms + [m], names) == ListedIn(ms, names) + if m.pos.filename in names then 1 else 0
  {
    if names != [] {
      ListedAfterOne(ms, m, names[1..]);
      assert (ms + [m])[..|ms + [m]| - 1] == ms;
    }
  }

  lemma {:induction false} NothingListed(names: seq<Path>)
    ensures ListedIn([], names) == 0
  {
    if names != [] {
      NothingListed(names[1..]);
    }
  }

  /** However the file map is enumerated, its lists hold every mutant once. */
  lemma {:induction false} FilesAddUp(ms: seq<Entry>, names: seq<Path>)
    requires forall i, j :: 0 <= i < j < |names| ==> names[i] != names[j]
    requires forall m :: m in ms ==> m.pos.filename in names
    ensures ListedIn(ms, names) == |ms|
  {
    if ms == [] {
      NothingListed(names);
    } else {
      var init, last := ms[..|ms| - 1], ms[|ms| - 1];
      assert ms == init + [last] && last in ms;
      FilesAddUp(init, names);
      ListedAfterOne(init, last, names);
    }
  }

  // ---- Percentages and the gate ----

  lemma ScaleOrder(q: real, x: real)
    requires x > 0.0
    ensures q * x <= x <==> q <= 1.0
    ensures q * x >= 0.0 <==> q >= 0.0
    ensures q * x == x ==> q == 1.0
  {
    if q > 1.0 {
      assert (q - 1.0) * x > 0.0;
    } else if q < 1.0 {
      assert (1.0 - q) * x > 0.0;
    }
    if q < 0.0 {
      assert (-q) * x > 0.0;
    } else {
      assert q * x >= 0.0;
    }
  }

  lemma PercentBounds(a: nat, b: nat)
    requires 0 < b && a <= b
    ensures 0.0 <= Percent(a, b) <= 100.0
    ensures Percent(a, b) == 100.0 <==> a == b
  {
    var q := a as real / b as real;
    assert q * b as real == a as real;
    ScaleOrder(q, b as real);
  }

  lemma PercentMonotone(a: nat, b: nat, a': nat, b': nat)
    requires 0 < b && 0 < b' && a * b' <= a' * b
    ensures Percent(a, b) <= Percent(a', b')
  {
    var q, q' := a as real / b as real, a' as real / b' as real;
    var x, x' := b as real, b' as real;
    assert q * x == a as real && q' * x' == a' as real;
    assert (a * b') as real == a as real * x' && (a' * b) as real == a' as real * x;
    assert (q * x) * x' <= (q' * x') * x;
    assert q * (x * x') <= q' * (x * x') by {
      assert (q * x) * x' == q * (x * x');
      assert (q' * x') * x == q' * (x * x');
    }
    assert x * x' > 0.0;
    assert q > q' ==> (q - q') * (x * x') > 0.0;
  }

  /** Both percentages lie in 0..100; full efficacy means some mutant was killed and none
      lived, full coverage of a full run that something was tested and nothing uncovered. */
  lemma PercentagesAreBounded(ms: seq<Entry>, dryRun: bool)
    ensures 0.0 <= Efficacy(ms, dryRun) <= 100.0 && 0.0 <= MutantCoverage(ms, dryRun) <= 100.0
    ensures Efficacy(ms, false) == 100.0 <==> StatusCount(ms, Killed) > 0 && StatusCount(ms, Lived) == 0
    ensures MutantCoverage(ms, false) == 100.0
       <==> StatusCount(ms, Killed) + StatusCount(ms, Lived) > 0 && StatusCount(ms, NotCovered) == 0
  {
    var k, l := StatusCount(ms, Killed), StatusCount(ms, Lived);
    var n, r := StatusCount(ms, NotCovered), StatusCount(ms, Runnable);
    if k > 0 { PercentBounds(k, k + l); }
    if k + l > 0 { PercentBounds(k + l, k + l + n); }
    if r > 0 { PercentBounds(r, r + n); }
  }

  ghost function CountsOf(ms: seq<Entry>): (nat, nat, nat) {
    (StatusCount(ms, Killed), StatusCount(ms, Lived), StatusCount(ms, NotCovered))
  }

  /** p per cent of whole is part. */
  predicate IsShare(p: real, part: nat, whole: nat) {
    p * whole as real == 100.0 * part as real
  }

  lemma PercentIsShare(a: nat, b: nat)
    requires b > 0
    ensures IsShare(Percent(a, b), a, b)
  {
    var q, x := a as real / b as real, b as real;
    assert q * x == a as real;
    assert (q * 100.0) * x == 100.0 * (q * x);
  }

  lemma EfficacyIsShare(k: nat, l: nat)
    ensures k == 0 || IsShare(EfficacyOf(k, l, false), k, k + l)
    ensures k == 0 ==> EfficacyOf(k, l, false) == 0.0
  {
    if k > 0 {
      PercentIsShare(k, k + l);
    }
  }

  lemma CoverageIsShare(t: nat, n: nat)
    ensures t == 0 || IsShare(CoverageOf(t, n), t, t + n)
    ensures t == 0 ==> CoverageOf(t, n) == 0.0
  {
    if t > 0 {
      PercentIsShare(t, t + n);
    }
  }

  /** The percentages are the shares they are named after, and 0 of nothing. */
  lemma PercentagesAreShares(ms: seq<Entry>)
    ensures var (k, l, n) := CountsOf(ms);
            && (if k == 0 then Efficacy(ms, false) == 0.0 else IsShare(Efficacy(ms, false), k, k + l))
            && (if k + l == 0 then MutantCoverage(ms, false) == 0.0
                else IsShare(MutantCoverage(ms, false), k + l, k + l + n))
    ensures var r, n := StatusCount(ms, Runnable), StatusCount(ms, NotCovered);
            if r == 0 then MutantCoverage(ms, true) == 0.0 else IsShare(MutantCoverage(ms, true), r, r + n)
    ensures Efficacy(ms, true) == 0.0
  {
    var (k, l, n) := CountsOf(ms);
    EfficacyIsShare(k, l);
    CoverageIsShare(k + l, n);
    CoverageIsShare(StatusCount(ms, Runnable), n);
  }

  /** A full run passes iff each positive threshold is exceeded; the coverage error is only
      given when the efficacy threshold is met. */
  lemma GateMeaning(ms: seq<Entry>, et: Threshold, ct: Threshold)
    requires ms != []
    ensures var e, c := Efficacy(ms, false), MutantCoverage(ms, false);
            && (ExitOf(ms, et, ct, false) == None
                <==> (et.Value() <= 0.0 || e > et.Value()) && (ct.Value() <= 0.0 || c > ct.Value()))
            && (ExitOf(ms, et, ct, false) == Some(EfficacyThreshold) <==> et.Value() > 0.0 && e <= et.Value())
  {
  }

  /** What a configured threshold demands: the float value, or the integer one if that is zero. */
  ghost predicate Demands(t: Threshold, x: real) {
    (t.asReal != 0.0 ==> x == t.asReal) && (t.asReal == 0.0 ==> x == t.asInt as real)
  }

  /** part is more than x per cent of whole, or nothing is demanded. */
  ghost predicate Exceeds(part: nat, whole: nat, x: real) {
    x <= 0.0 || 100.0 * part as real > x * whole as real
  }

  lemma ShareExceeds(p: real, part: nat, whole: nat, x: real)
    requires if part == 0 then p == 0.0 else whole > 0 && IsShare(p, part, whole)
    ensures x > 0.0 && p <= x <==> !Exceeds(part, whole, x)
  {
    var w := whole as real;
    if x > 0.0 {
      if part == 0 {
        assert x * w >= 0.0;
      } else {
        assert p <= x ==> (x - p) * w >= 0.0;
        assert p > x ==> (p - x) * w > 0.0;
        assert (x - p) * w == x * w - p * w && (p - x) * w == p * w - x * w;
      }
    }
  }

  /** When a run exits with which error, by the numbers of killed, lived and not covered mutants. */
  lemma ExitMeaning(ms: seq<Entry>, et: Threshold, ct: Threshold, dryRun: bool, e: real, c: real)
    requires Demands(et, e) && Demands(ct, c)
    ensures var k, l, n := Number(ms, Killed), Number(ms, Lived),
                           Number(ms, NotCovered);
            ExitOf(ms, et, ct, dryRun)
            == if dryRun || ms == [] then None
               else if !Exceeds(k, k + l, e) then Some(EfficacyThreshold)
               else if !Exceeds(k + l, k + l + n, c) then Some(MutantCoverageThreshold)
               else None
  {
    StatusIsNumber(ms, Killed);
    StatusIsNumber(ms, Lived);
    StatusIsNumber(ms, NotCovered);
    if !dryRun {
      PercentagesAreShares(ms);
      var (k, l, n) := CountsOf(ms);
      ShareExceeds(Efficacy(ms, false), k, k + l, e);
      ShareExceeds(MutantCoverage(ms, false), k + l, k + l + n, c);
    }
  }

  /** ms with the i-th mutant killed instead. */
  function Kill(ms: seq<Entry>, i: nat): seq<Entry>
    requires i < |ms|
  {
    ms[i := ms[i].(status := Killed)]
  }

  lemma KillCounts(ms: seq<Entry>, i: nat, st: Status)
    requires i < |ms| && ms[i].status != Killed
    ensures StatusCount(Kill(ms, i), st)
         == StatusCount(ms, st) + (if st == Killed then 1 else 0) - (if st == ms[i].status then 1 else 0)
  {
    CountIfWithout(ms, i, HasStatus(st));
    CountIfWithout(Kill(ms, i), i, HasStatus(st));
    assert Kill(ms, i)[..i] == ms[..i] && Kill(ms, i)[i + 1..] == ms[i + 1..];
  }

  lemma KillMovesOne(ms: seq<Entry>, i: nat)
    requires i < |ms| && (ms[i].status == Lived || ms[i].status == NotCovered)
    ensures var (k, l, n) := CountsOf(ms);
            if ms[i].status == Lived then l > 0 && CountsOf(Kill(ms, i)) == (k + 1, l - 1, n)
            else n > 0 && CountsOf(Kill(ms, i)) == (k + 1, l, n - 1)
  {
    KillCounts(ms, i, Killed);
    KillCounts(ms, i, Lived);
    KillCounts(ms, i, NotCovered);
  }

  lemma KillingRaisesEfficacy(ms: seq<Entry>, i: nat)
    requires i < |ms| && (ms[i].status == Lived || ms[i].status == NotCovered)
    ensures Efficacy(ms, false) <= Efficacy(Kill(ms, i), false)
  {
    KillMovesOne(ms, i);
    var (k, l, _) := CountsOf(ms);
    var (k', l', _) := CountsOf(Kill(ms, i));
    PercentBounds(k', k' + l');
    KilledShareGrows(k, l, l');
    if k > 0 {
      PercentMonotone(k, k + l, k', k' + l');
    }
  }

  lemma KillingRaisesCoverage(ms: seq<Entry>, i: nat)
    requires i < |ms| && (ms[i].status == Lived || ms[i].status == NotCovered)
    ensures MutantCoverage(ms, false) <= MutantCoverage(Kill(ms, i), false)
  {
    KillMovesOne(ms, i);
    var (k, l, n) := CountsOf(ms);
    var (k', l', n') := CountsOf(Kill(ms, i));
    PercentBounds(k' + l', k' + l' + n');
    TestedShareGrows(k + l, n, n');
    if k + l > 0 {
      PercentMonotone(k + l, k + l + n, k' + l', k' + l' + n');
    }
  }

  /** In a full run, killing a mutant that lived or was not covered never lowers efficacy or
      coverage, and never turns a passing run into a failing one, for any thresholds. */
  lemma KillingNeverHurts(ms: seq<Entry>, i: nat, et: Threshold, ct: Threshold)
    requires i < |ms| && (ms[i].status == Lived || ms[i].status == NotCovered)
    ensures Efficacy(ms, false) <= Efficacy(Kill(ms, i), false)
    ensures MutantCoverage(ms, false) <= MutantCoverage(Kill(ms, i), false)
    ensures ExitOf(ms, et, ct, false) == None ==> ExitOf(Kill(ms, i), et, ct, false) == None
  {
    KillingRaisesEfficacy(ms, i);
    KillingRaisesCoverage(ms, i);
  }

  lemma KilledShareGrows(k: nat, l: nat, l': nat)
    requires l' == l || (l > 0 && l' == l - 1)
    ensures k * (k + 1 + l') <= (k + 1) * (k + l)
  {
    assert (k + 1) * (k + l) == k * (k + l) + (k + l);
    assert k * (k + 1 + l') == k * (k + l') + k;
    assert k * (k + l') <= k * (k + l);
  }

  lemma TestedShareGrows(t: nat, n: nat, n': nat)
    requires n' == n || (n > 0 && n' == n - 1)
    ensures var t' := t + (n - n'); t * (t' + n') <= t' * (t + n)
  {
    var t' := t + (n - n');
    assert t' + n' == t + n;
  }
}
