/** Which lines a git diff marks as changed (internal/diff/diff.go). */
module Diff {
  import opened Mutation

  datatype LineOp = Context | Delete | Insert

  /** A hunk as the diff parser returns it. */
  datatype Fragment = Fragment(newPosition: int, leadingContext: int, linesAdded: int, lines: seq<LineOp>)

  datatype FileDiff = FileDiff(newName: Path, fragments: seq<Fragment>)

  datatype Change = Change(startLine: int, endLine: int)

  type Changes = map<Path, seq<Change>>

  // ---- What the code computes ----

  function MarkOf(f: Fragment): Change {
    var start := f.newPosition + f.leadingContext;
    Change(start, start + (f.linesAdded - 1))
  }

  function Marks(fragments: seq<Fragment>): seq<Change> {
    if |fragments| == 0 then []
    else
      var last := fragments[|fragments| - 1];
      Marks(fragments[..|fragments| - 1]) + if last.linesAdded == 0 then [] else [MarkOf(last)]
  }

  /** Later files of the same new name replace earlier ones. */
  function Collect(files: seq<FileDiff>): Changes {
    if |files| == 0 then map[]
    else
      var last := files[|files| - 1];
      Collect(files[..|files| - 1])[last.newName := Marks(last.fragments)]
  }

  predicate Within(c: Change, line: int) { c.startLine <= line <= c.endLine }

  ghost predicate Changed(d: Changes, pos: Position) {
    d == map[] || (pos.filename in d && exists c :: c in d[pos.filename] && Within(c, pos.line))
  }

  method NewChanges(file: FileDiff) returns (name: Path, changes: seq<Change>)
    ensures name == file.newName && changes == Marks(file.fragments)
  {
    changes := [];
    for i := 0 to |file.fragments|
      invariant changes == Marks(file.fragments[..i])
    {
      var fragment := file.fragments[i];
      assert file.fragments[..i + 1][..i] == file.fragments[..i];
      if fragment.linesAdded == 0 {
        continue;
      }
      var startLine := fragment.newPosition + fragment.leadingContext;
      changes := changes + [Change(startLine, startLine + (fragment.linesAdded - 1))];
    }
    assert file.fragments[..|file.fragments|] == file.fragments;
    name := file.newName;
  }

  method NewDiff(files: seq<FileDiff>) returns (result: Changes)
    ensures result == Collect(files)
  {
    result := map[];
    for i := 0 to |files|
      invariant result == Collect(files[..i])
    {
      var name, changes := NewChanges(files[i]);
      assert files[..i + 1][..i] == files[..i];
      result := result[name := changes];
    }
    assert files[..|files|] == files;
  }

  method IsChanged(d: Changes, pos: Position) returns (changed: bool)
    ensures changed <==> Changed(d, pos)
  {
    if |d| == 0 {
      assert d == map[];
      return true;
    }
    var fileDiff := if pos.filename in d then d[pos.filename] else [];
    for i := 0 to |fileDiff|
      invariant forall c :: c in fileDiff[..i] ==> !Within(c, pos.line)
    {
      if fileDiff[i].startLine <= pos.line && pos.line <= fileDiff[i].endLine {
        assert fileDiff[i] in fileDiff && Within(fileDiff[i], pos.line);
        return true;
      }
    }
    return false;
  }

  // ---- What a hunk means ----

  /** Lines of the new file that the hunk body really adds, counted from the given line:
      context and additions advance in the new file, deletions do not. */
  ghost function AddedLines(lines: seq<LineOp>, line: int): set<int> {
    if lines == [] then {}
    else match lines[0]
      case Insert => {line} + AddedLines(lines[1..], line + 1)
      case Context => AddedLines(lines[1..], line + 1)
      case Delete => AddedLines(lines[1..], line)
  }

  ghost function Insertions(lines: seq<LineOp>): nat {
    if lines == [] then 0 else (if lines[0] == Insert then 1 else 0) + Insertions(lines[1..])
  }

  ghost function Leading(lines: seq<LineOp>): nat {
    if lines == [] || lines[0] != Context then 0 else 1 + Leading(lines[1..])
  }

  /** The hunk body as seen from the new file. */
  ghost function NewSide(lines: seq<LineOp>): seq<LineOp> {
    if lines == [] then []
    else if lines[0] == Delete then NewSide(lines[1..])
    else [lines[0]] + NewSide(lines[1..])
  }

  ghost predicate WellFormed(f: Fragment) {
    f.linesAdded == Insertions(f.lines) && f.leadingContext == Leading(f.lines)
  }

  ghost function Interval(a: int, b: int): (s: set<int>)
    requires a <= b + 1
    ensures forall x :: x in s <==> a <= x <= b
    ensures |s| == b - a + 1
    decreases b - a
  {
    if a > b then {} else Interval(a, b - 1) + {b}
  }

  ghost function MarkedLines(f: Fragment): set<int>
    requires 0 <= f.linesAdded
  {
    Interval(MarkOf(f).startLine, MarkOf(f).endLine)
  }

  /** All additions stand together right behind the leading context. */
  ghost predicate AdditionsTogether(f: Fragment) {
    var body := NewSide(f.lines);
    && 0 <= f.leadingContext && 0 <= f.linesAdded && f.leadingContext + f.linesAdded <= |body|
    && forall k :: f.leadingContext <= k < f.leadingContext + f.linesAdded ==> body[k] == Insert
  }

  lemma {:induction false} AddedLinesAreNewSideInsertions(lines: seq<LineOp>, line: int)
    ensures forall x :: x in AddedLines(lines, line)
              <==> 0 <= x - line < |NewSide(lines)| && NewSide(lines)[x - line] == Insert
  {
    if lines != [] {
      AddedLinesAreNewSideInsertions(lines[1..], if lines[0] == Delete then line else line + 1);
    }
  }

  lemma {:induction false} AddedLinesCount(lines: seq<LineOp>, line: int)
    ensures |AddedLines(lines, line)| == Insertions(lines)
    ensures forall x :: x in AddedLines(lines, line) ==> line <= x
  {
    if lines != [] {
      AddedLinesCount(lines[1..], if lines[0] == Delete then line else line + 1);
    }
  }

  lemma {:induction false} NewSideHoldsContextAndInsertions(lines: seq<LineOp>)
    ensures Leading(lines) + Insertions(lines) <= |NewSide(lines)|
    ensures forall k :: 0 <= k < Leading(lines) ==> NewSide(lines)[k] == Context
  {
    if lines != [] {
      NewSideHoldsContextAndInsertions(lines[1..]);
      InsertionsFit(lines[1..]);
    }
  }

  lemma {:induction false} InsertionsFit(lines: seq<LineOp>)
    ensures Insertions(lines) <= |NewSide(lines)|
  {
    if lines != [] {
      InsertionsFit(lines[1..]);
    }
  }

  lemma SameSizeSubset(a: set<int>, b: set<int>)
    requires a <= b && |a| == |b|
    ensures a == b
  {
    assert b == a + (b - a);
    assert |b| == |a| + |b - a|;
  }

  /** A well-formed hunk marks as many lines as it adds, all of them lines of its new side. */
  lemma MarkedLinesFitTheHunk(f: Fragment)
    requires WellFormed(f)
    ensures |MarkedLines(f)| == f.linesAdded == |AddedLines(f.lines, f.newPosition)|
    ensures forall x :: x in MarkedLines(f) ==> f.newPosition <= x < f.newPosition + |NewSide(f.lines)|
  {
    AddedLinesCount(f.lines, f.newPosition);
    NewSideHoldsContextAndInsertions(f.lines);
  }

  lemma ExactMarksMeanTogether(f: Fragment)
    requires WellFormed(f) && MarkedLines(f) == AddedLines(f.lines, f.newPosition)
    ensures AdditionsTogether(f)
  {
    NewSideHoldsContextAndInsertions(f.lines);
    AddedLinesAreNewSideInsertions(f.lines, f.newPosition);
    forall k | f.leadingContext <= k < f.leadingContext + f.linesAdded ensures NewSide(f.lines)[k] == Insert {
      assert f.newPosition + k in MarkedLines(f);
    }
  }

  lemma TogetherMeansExactMarks(f: Fragment)
    requires WellFormed(f) && AdditionsTogether(f)
    ensures MarkedLines(f) == AddedLines(f.lines, f.newPosition)
  {
    MarkedLinesFitTheHunk(f);
    AddedLinesAreNewSideInsertions(f.lines, f.newPosition);
    forall x | x in MarkedLines(f) ensures x in AddedLines(f.lines, f.newPosition) {
      assert NewSide(f.lines)[x - f.newPosition] == Insert;
    }
    SameSizeSubset(MarkedLines(f), AddedLines(f.lines, f.newPosition));
  }

  /** The marked lines are the added lines exactly when no context line stands before an
      addition except the leading ones that the parser counted. */
  lemma MarksAreExactIffAdditionsTogether(f: Fragment)
    requires WellFormed(f)
    ensures MarkedLines(f) == AddedLines(f.lines, f.newPosition) <==> AdditionsTogether(f)
  {
    if AdditionsTogether(f) {
      TogetherMeansExactMarks(f);
    }
    if MarkedLines(f) == AddedLines(f.lines, f.newPosition) {
      ExactMarksMeanTogether(f);
    }
  }

  /** One context line between a deletion and the only addition already moves the mark off
      the added line. */
  lemma InterleavedContextMovesTheMark()
    ensures var f := Fragment(10, 1, 1, [Context, Delete, Context, Insert]);
            && WellFormed(f)
            && MarkedLines(f) == {11}
            && AddedLines(f.lines, f.newPosition) == {12}
  {
    var l := [Context, Delete, Context, Insert];
    assert l[1..] == [Delete, Context, Insert];
    assert l[1..][1..] == [Context, Insert];
    assert l[1..][1..][1..] == [Insert];
    assert l[1..][1..][1..][1..] == [];
    assert AddedLines([Insert], 12) == {12};
    assert AddedLines([Context, Insert], 11) == {12};
    assert Insertions([Insert]) == 1 && Insertions([Context, Insert]) == 1;
    assert WellFormed(Fragment(10, 1, 1, l));
    assert Interval(11, 10) == {};
  }

  // ---- The whole diff ----

  lemma {:induction false} MarksMembers(fragments: seq<Fragment>, c: Change)
    ensures c in Marks(fragments)
       <==> exists i :: 0 <= i < |fragments| && fragments[i].linesAdded != 0 && c == MarkOf(fragments[i])
  {
    if |fragments| > 0 {
      var init := fragments[..|fragments| - 1];
      MarksMembers(init, c);
      if c in Marks(init) {
        var i :| 0 <= i < |init| && init[i].linesAdded != 0 && c == MarkOf(init[i]);
        assert fragments[i] == init[i];
      }
    }
  }

  /** No later entry has the new name of entry i. */
  ghost predicate IsLast(files: seq<FileDiff>, i: nat)
    requires i < |files|
  {
    forall j :: i < j < |files| ==> files[j].newName != files[i].newName
  }

  /** The last entry of a new name is the one that counts. */
  lemma {:induction false} CollectTakesLast(files: seq<FileDiff>, i: nat)
    requires i < |files| && IsLast(files, i)
    ensures files[i].newName in Collect(files)
    ensures Collect(files)[files[i].newName] == Marks(files[i].fragments)
  {
    if i < |files| - 1 {
      CollectTakesLast(files[..|files| - 1], i);
    }
  }

  lemma {:induction false} CollectNames(files: seq<FileDiff>, name: Path)
    requires exists i :: 0 <= i < |files| && files[i].newName == name
    ensures exists i: nat :: i < |files| && files[i].newName == name && IsLast(files, i)
  {
    if files[|files| - 1].newName == name {
      assert IsLast(files, |files| - 1);
    } else {
      var init := files[..|files| - 1];
      var k :| 0 <= k < |files| && files[k].newName == name;
      assert init[k].newName == name;
      CollectNames(init, name);
      var i: nat :| i < |init| && init[i].newName == name && IsLast(init, i);
      assert files[i].newName == name && IsLast(files, i);
    }
  }

  lemma {:induction false} CollectKnows(files: seq<FileDiff>, name: Path)
    requires name in Collect(files)
    ensures exists i :: 0 <= i < |files| && files[i].newName == name
  {
    if |files| > 0 && files[|files| - 1].newName != name {
      CollectKnows(files[..|files| - 1], name);
      var i :| 0 <= i < |files| - 1 && files[..|files| - 1][i].newName == name;
      assert files[i].newName == name;
    }
  }

  /** Position pos is on a line that hunk j of entry i adds. */
  ghost predicate AddsAt(files: seq<FileDiff>, i: nat, j: nat, pos: Position) {
    && i < |files| && j < |files[i].fragments|
    && files[i].newName == pos.filename
    && pos.line in AddedLines(files[i].fragments[j].lines, files[i].fragments[j].newPosition)
  }

  ghost predicate ReallyAdded(files: seq<FileDiff>, pos: Position) {
    exists i: nat, j: nat :: AddsAt(files, i, j, pos)
  }

  ghost predicate AllWellFormed(files: seq<FileDiff>) {
    forall i, j :: 0 <= i < |files| && 0 <= j < |files[i].fragments| ==> WellFormed(files[i].fragments[j])
  }

  ghost predicate AllTogether(files: seq<FileDiff>) {
    forall i, j :: 0 <= i < |files| && 0 <= j < |files[i].fragments|
      ==> WellFormed(files[i].fragments[j]) && AdditionsTogether(files[i].fragments[j])
  }

  /** An entry that a later one of the same new name replaces adds nothing. Deleted files, which
      all have the same new name, are such entries. */
  ghost predicate NothingReplaced(files: seq<FileDiff>) {
    forall i, j :: 0 <= i < |files| && !IsLast(files, i) && 0 <= j < |files[i].fragments|
      ==> files[i].fragments[j].linesAdded == 0
  }

  /** A changed line is marked by a hunk of the last entry of its file. */
  lemma ChangedIsMarked(files: seq<FileDiff>, pos: Position) returns (i: nat, j: nat)
    requires files != [] && AllWellFormed(files) && Changed(Collect(files), pos)
    ensures i < |files| && IsLast(files, i) && files[i].newName == pos.filename && j < |files[i].fragments|
    ensures pos.line in MarkedLines(files[i].fragments[j])
  {
    assert files[|files| - 1].newName in Collect(files) by {
      CollectTakesLast(files, |files| - 1);
    }
    var c :| c in Collect(files)[pos.filename] && Within(c, pos.line);
    CollectKnows(files, pos.filename);
    CollectNames(files, pos.filename);
    i :| i < |files| && files[i].newName == pos.filename && IsLast(files, i);
    CollectTakesLast(files, i);
    MarksMembers(files[i].fragments, c);
    j :| j < |files[i].fragments| && files[i].fragments[j].linesAdded != 0 && c == MarkOf(files[i].fragments[j]);
  }

  lemma MarkedIsChanged(files: seq<FileDiff>, i: nat, j: nat, pos: Position)
    requires i < |files| && IsLast(files, i) && j < |files[i].fragments|
    requires WellFormed(files[i].fragments[j]) && files[i].newName == pos.filename
    requires pos.line in MarkedLines(files[i].fragments[j])
    ensures Changed(Collect(files), pos)
  {
    var f := files[i].fragments[j];
    CollectTakesLast(files, i);
    MarksMembers(files[i].fragments, MarkOf(f));
    assert MarkOf(f) in Collect(files)[pos.filename] && Within(MarkOf(f), pos.line);
  }

  lemma ChangedWasAdded(files: seq<FileDiff>, pos: Position)
    requires AllWellFormed(files) && AllTogether(files) && files != [] && Changed(Collect(files), pos)
    ensures ReallyAdded(files, pos)
  {
    var i, j := ChangedIsMarked(files, pos);
    TogetherMeansExactMarks(files[i].fragments[j]);
    assert AddsAt(files, i, j, pos);
  }

  lemma AddedIsChanged(files: seq<FileDiff>, pos: Position)
    requires AllTogether(files) && NothingReplaced(files) && ReallyAdded(files, pos)
    ensures Changed(Collect(files), pos)
  {
    var i: nat, j: nat :| AddsAt(files, i, j, pos);
    TogetherMeansExactMarks(files[i].fragments[j]);
    assert IsLast(files, i);
    MarkedIsChanged(files, i, j, pos);
  }

  /** For a diff whose hunks all keep their additions together, and that has no additions in an
      entry replaced by a later one of the same name, a position counts as changed iff its line
      was added, or the diff names no file at all. */
  lemma ChangedMeansAdded(files: seq<FileDiff>, pos: Position)
    requires AllTogether(files) && NothingReplaced(files)
    ensures Changed(Collect(files), pos) <==> files == [] || ReallyAdded(files, pos)
  {
    if files != [] && Changed(Collect(files), pos) {
      ChangedWasAdded(files, pos);
    }
    if ReallyAdded(files, pos) {
      AddedIsChanged(files, pos);
    }
  }

  // ---- When the marking of a whole diff is exact ----

  ghost predicate InNewRange(f: Fragment, line: int) {
    f.newPosition <= line < f.newPosition + |NewSide(f.lines)|
  }

  ghost predicate Covers(files: seq<FileDiff>, i: nat, j: nat, name: Path, line: int) {
    i < |files| && j < |files[i].fragments| && files[i].newName == name && InNewRange(files[i].fragments[j], line)
  }

  /** No line of a new file is in two hunks. */
  ghost predicate HunksApart(files: seq<FileDiff>) {
    forall i: nat, j: nat, k: nat, l: nat, name, line ::
      Covers(files, i, j, name, line) && Covers(files, k, l, name, line) ==> i == k && j == l
  }

  /** IsChanged answers for every position whether its line was added. */
  ghost predicate MarkingIsExact(files: seq<FileDiff>) {
    forall pos :: Changed(Collect(files), pos) <==> files == [] || ReallyAdded(files, pos)
  }

  lemma AddedLineIsCovered(files: seq<FileDiff>, i: nat, j: nat, pos: Position)
    requires AddsAt(files, i, j, pos)
    ensures Covers(files, i, j, pos.filename, pos.line)
  {
    AddedLinesAreNewSideInsertions(files[i].fragments[j].lines, files[i].fragments[j].newPosition);
  }

  lemma MarkedLineWasAdded(files: seq<FileDiff>, i: nat, j: nat, x: int)
    requires AllWellFormed(files) && HunksApart(files) && MarkingIsExact(files)
    requires i < |files| && IsLast(files, i) && j < |files[i].fragments| && x in MarkedLines(files[i].fragments[j])
    ensures x in AddedLines(files[i].fragments[j].lines, files[i].fragments[j].newPosition)
  {
    var pos := Position(files[i].newName, x, 0);
    MarkedIsChanged(files, i, j, pos);
    assert ReallyAdded(files, pos);
    var k: nat, l: nat :| AddsAt(files, k, l, pos);
    AddedLineIsCovered(files, k, l, pos);
    MarkedLinesFitTheHunk(files[i].fragments[j]);
    assert Covers(files, i, j, pos.filename, x);
  }

  lemma ExactMarkingMeansTogether(files: seq<FileDiff>, i: nat, j: nat)
    requires AllWellFormed(files) && HunksApart(files) && MarkingIsExact(files)
    requires i < |files| && IsLast(files, i) && j < |files[i].fragments|
    ensures AdditionsTogether(files[i].fragments[j])
  {
    var f := files[i].fragments[j];
    forall x | x in MarkedLines(f) ensures x in AddedLines(f.lines, f.newPosition) {
      MarkedLineWasAdded(files, i, j, x);
    }
    MarkedLinesFitTheHunk(f);
    SameSizeSubset(MarkedLines(f), AddedLines(f.lines, f.newPosition));
    ExactMarksMeanTogether(f);
  }

  lemma ExactMarkingReplacesNothing(files: seq<FileDiff>, i: nat, j: nat)
    requires AllWellFormed(files) && HunksApart(files) && MarkingIsExact(files)
    requires i < |files| && !IsLast(files, i) && j < |files[i].fragments|
    ensures files[i].fragments[j].linesAdded == 0
  {
    var f := files[i].fragments[j];
    MarkedLinesFitTheHunk(f);
    if f.linesAdded != 0 {
      assert AddedLines(f.lines, f.newPosition) != {};
      var x :| x in AddedLines(f.lines, f.newPosition);
      var pos := Position(files[i].newName, x, 0);
      assert AddsAt(files, i, j, pos);
      AddedLineIsCovered(files, i, j, pos);
      var k, l := ChangedIsMarked(files, pos);
      MarkedLinesFitTheHunk(files[k].fragments[l]);
      assert Covers(files, k, l, pos.filename, x);
    }
  }

  /** An entry with additions that is replaced by a later one of its name is forgotten. */
  lemma ReplacedEntryIsForgotten()
    ensures var files := [FileDiff("a.go", [Fragment(1, 0, 1, [Insert])]),
                          FileDiff("a.go", [Fragment(5, 0, 1, [Insert])])];
            var pos := Position("a.go", 1, 1);
            AllTogether(files) && ReallyAdded(files, pos) && !Changed(Collect(files), pos)
  {
    var lines := [Insert];
    assert lines[1..] == [];
    assert Insertions(lines) == 1 && NewSide(lines) == [Insert] && 1 in AddedLines(lines, 1);
    var files := [FileDiff("a.go", [Fragment(1, 0, 1, lines)]), FileDiff("a.go", [Fragment(5, 0, 1, lines)])];
    assert AddsAt(files, 0, 0, Position("a.go", 1, 1));
    CollectTakesLast(files, 1);
    var f := files[1].fragments;
    assert f[..0] == [];
    assert Marks(f) == [Change(5, 5)];
  }

  lemma NoAdditionsAreTogether(f: Fragment)
    requires WellFormed(f) && f.linesAdded == 0
    ensures AdditionsTogether(f)
  {
    NewSideHoldsContextAndInsertions(f.lines);
  }

  lemma ExactMarkingMeansBoth(files: seq<FileDiff>)
    requires AllWellFormed(files) && HunksApart(files) && MarkingIsExact(files)
    ensures AllTogether(files) && NothingReplaced(files)
  {
    forall i, j | 0 <= i < |files| && !IsLast(files, i) && 0 <= j < |files[i].fragments|
      ensures files[i].fragments[j].linesAdded == 0
    {
      ExactMarkingReplacesNothing(files, i, j);
    }
    forall i, j | 0 <= i < |files| && 0 <= j < |files[i].fragments|
      ensures WellFormed(files[i].fragments[j]) && AdditionsTogether(files[i].fragments[j])
    {
      if IsLast(files, i) {
        ExactMarkingMeansTogether(files, i, j);
      } else {
        NoAdditionsAreTogether(files[i].fragments[j]);
      }
    }
  }

  /** For well-formed hunks that share no line of a new file, IsChanged is right at every
      position iff every hunk keeps its additions together behind its leading context and no
      entry with additions is replaced by a later one of its name. */
  lemma MarkingIsExactIff(files: seq<FileDiff>)
    requires AllWellFormed(files) && HunksApart(files)
    ensures MarkingIsExact(files) <==> AllTogether(files) && NothingReplaced(files)
  {
    if MarkingIsExact(files) {
      ExactMarkingMeansBoth(files);
    }
    if AllTogether(files) && NothingReplaced(files) {
      forall pos ensures Changed(Collect(files), pos) <==> files == [] || ReallyAdded(files, pos) {
        ChangedMeansAdded(files, pos);
      }
    }
  }
}
