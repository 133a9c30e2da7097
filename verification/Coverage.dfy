/** Coverage profile: the fold of `go test -coverprofile` blocks into a map and the
    lookup of a position (internal/coverage/coverage.go, internal/coverage/profile.go). */
module Coverage {
  import opened Mutation

  datatype Block = Block(startLine: int, startCol: int, endLine: int, endCol: int) {
    predicate IsSingleLine() { startLine == endLine }

    predicate IsMultiLine() { startLine < endLine }

    predicate IsBetweenLines(pos: Position) { startLine < pos.line < endLine }

    predicate IsPositionCovered(pos: Position) {
      || (IsSingleLine() && pos.line == startLine && startCol <= pos.column <= endCol)
      || (IsMultiLine() && pos.line == startLine && startCol <= pos.column)
      || (IsMultiLine() && pos.line == endLine && pos.column <= endCol)
    }
  }

  type Profile = map<Path, seq<Block>>

  /** What golang.org/x/tools/cover returns for one file of the report. */
  datatype CountedBlock = CountedBlock(block: Block, count: int)

  datatype FileProfile = FileProfile(fileName: Path, blocks: seq<CountedBlock>)

  // ---- Reference: text order on (line, column) ----

  predicate AtOrBefore(line: int, col: int, line': int, col': int) {
    line < line' || (line == line' && col <= col')
  }

  predicate Contains(b: Block, pos: Position) {
    && AtOrBefore(b.startLine, b.startCol, pos.line, pos.column)
    && AtOrBefore(pos.line, pos.column, b.endLine, b.endCol)
  }

  ghost predicate Covered(profile: Profile, pos: Position) {
    pos.filename in profile && exists b :: b in profile[pos.filename] && Contains(b, pos)
  }

  /** The two tests of the lookup loop are together exactly containment in text order,
      also for blocks that end before they start. */
  lemma BlockTestIsTextOrder(b: Block, pos: Position)
    ensures b.IsBetweenLines(pos) || b.IsPositionCovered(pos) <==> Contains(b, pos)
  {
  }

  method IsCovered(profile: Profile, pos: Position) returns (covered: bool)
    ensures covered <==> Covered(profile, pos)
  {
    if pos.filename !in profile {
      return false;
    }
    var blocks := profile[pos.filename];
    for i := 0 to |blocks|
      invariant forall b :: b in blocks[..i] ==> !Contains(b, pos)
    {
      var b := blocks[i];
      BlockTestIsTextOrder(b, pos);
      if b.IsBetweenLines(pos) {
        return true;
      }
      if b.IsPositionCovered(pos) {
        return true;
      }
    }
    return false;
  }

  // ---- The fold ----

  /** b comes from the report as a block of the file called name, with a non-zero count. */
  ghost predicate Reported(profiles: seq<FileProfile>, rename: Path -> Path, name: Path, b: Block) {
    exists p, i | 0 <= p < |profiles| && 0 <= i < |profiles[p].blocks| ::
      && rename(profiles[p].fileName) == name
      && profiles[p].blocks[i].block == b
      && profiles[p].blocks[i].count != 0
  }

  /** Non-zero blocks of one file, in report order. */
  function Counted(blocks: seq<CountedBlock>): seq<Block> {
    if |blocks| == 0 then []
    else
      var last := blocks[|blocks| - 1];
      Counted(blocks[..|blocks| - 1]) + if last.count == 0 then [] else [last.block]
  }

  /** All non-zero blocks reported for name, in report order. */
  function BlocksOf(profiles: seq<FileProfile>, rename: Path -> Path, name: Path): seq<Block> {
    if |profiles| == 0 then []
    else
      var last := profiles[|profiles| - 1];
      BlocksOf(profiles[..|profiles| - 1], rename, name)
      + if rename(last.fileName) == name then Counted(last.blocks) else []
  }

  lemma {:induction false} CountedMembers(blocks: seq<CountedBlock>, b: Block)
    ensures b in Counted(blocks) <==> exists i :: 0 <= i < |blocks| && blocks[i].block == b && blocks[i].count != 0
  {
    if |blocks| > 0 {
      var init := blocks[..|blocks| - 1];
      CountedMembers(init, b);
      if b in Counted(init) {
        var i :| 0 <= i < |init| && init[i].block == b && init[i].count != 0;
        assert blocks[i].block == b;
      }
    }
  }

  lemma {:induction false} BlocksOfMembers(profiles: seq<FileProfile>, rename: Path -> Path, name: Path, b: Block)
    ensures b in BlocksOf(profiles, rename, name) <==> Reported(profiles, rename, name, b)
  {
    if |profiles| > 0 {
      var init, last := profiles[..|profiles| - 1], profiles[|profiles| - 1];
      BlocksOfMembers(init, rename, name, b);
      CountedMembers(last.blocks, b);
      if Reported(profiles, rename, name, b) {
        var p, i :| 0 <= p < |profiles| && 0 <= i < |profiles[p].blocks|
          && rename(profiles[p].fileName) == name
          && profiles[p].blocks[i].block == b && profiles[p].blocks[i].count != 0;
        if p < |init| {
          assert rename(init[p].fileName) == name && init[p].blocks[i].block == b;
        }
      }
      if Reported(init, rename, name, b) {
        var p, i :| 0 <= p < |init| && 0 <= i < |init[p].blocks|
          && rename(init[p].fileName) == name
          && init[p].blocks[i].block == b && init[p].blocks[i].count != 0;
        assert rename(profiles[p].fileName) == name && profiles[p].blocks[i].block == b;
      }
      if rename(last.fileName) == name && b in Counted(last.blocks) {
        var i :| 0 <= i < |last.blocks| && last.blocks[i].block == b && last.blocks[i].count != 0;
        assert profiles[|profiles| - 1].blocks[i].block == b;
      }
    }
  }

  function Lookup(status: Profile, name: Path): seq<Block> {
    if name in status then status[name] else []
  }

  /** A profile holds exactly the reported blocks, per name and in report order, and no
      name without blocks. */
  ghost predicate IsFoldOf(status: Profile, profiles: seq<FileProfile>, rename: Path -> Path) {
    && (forall name :: name in status ==> status[name] != [])
    && (forall name :: Lookup(status, name) == BlocksOf(profiles, rename, name))
  }

  function Append(status: Profile, name: Path, b: Block): Profile {
    status[name := Lookup(status, name) + [b]]
  }

  /** after is before with the blocks of added put behind those of name. */
  ghost predicate Extended(before: Profile, after: Profile, name: Path, added: seq<Block>) {
    && (forall other :: other in after && other !in before ==> other == name && added != [])
    && (forall other :: other in before ==> other in after)
    && (forall other :: other in before && other != name ==> after[other] == before[other])
    && Lookup(after, name) == Lookup(before, name) + added
  }

  lemma ExtendedByOne(before: Profile, after: Profile, name: Path, added: seq<Block>, b: Block)
    requires Extended(before, after, name, added)
    ensures Extended(before, Append(after, name, b), name, added + [b])
  {
    assert Lookup(before, name) + added + [b] == Lookup(before, name) + (added + [b]);
  }

  lemma FoldOneFile(before: Profile, after: Profile, profiles: seq<FileProfile>, rename: Path -> Path)
    requires |profiles| > 0 && IsFoldOf(before, profiles[..|profiles| - 1], rename)
    requires var last := profiles[|profiles| - 1];
             Extended(before, after, rename(last.fileName), Counted(last.blocks))
    ensures IsFoldOf(after, profiles, rename)
  {
    var last := profiles[|profiles| - 1];
    var fn := rename(last.fileName);
    forall name ensures Lookup(after, name) == BlocksOf(profiles, rename, name) {
      assert Lookup(before, name) == BlocksOf(profiles[..|profiles| - 1], rename, name);
    }
    forall name | name in after ensures after[name] != [] {
      if name in before {
        assert Lookup(before, name) != [];
      }
    }
  }

  /** Nested fold of the parsed report; rename stands for removeModuleFromPath. */
  method Parse(profiles: seq<FileProfile>, rename: Path -> Path) returns (status: Profile)
    ensures IsFoldOf(status, profiles, rename)
  {
    status := map[];
    for p := 0 to |profiles|
      invariant IsFoldOf(status, profiles[..p], rename)
    {
      ghost var before := status;
      status := AppendCounted(status, rename(profiles[p].fileName), profiles[p].blocks);
      assert profiles[..p + 1][..p] == profiles[..p];
      FoldOneFile(before, status, profiles[..p + 1], rename);
    }
    assert profiles[..|profiles|] == profiles;
  }

  /** The inner loop of the fold. */
  method AppendCounted(before: Profile, fn: Path, blocks: seq<CountedBlock>) returns (status: Profile)
    ensures Extended(before, status, fn, Counted(blocks))
  {
    status := before;
    for i := 0 to |blocks|
      invariant Extended(before, status, fn, Counted(blocks[..i]))
    {
      assert blocks[..i + 1][..i] == blocks[..i];
      if blocks[i].count == 0 {
        assert Counted(blocks[..i + 1]) == Counted(blocks[..i]);
        continue;
      }
      ExtendedByOne(before, status, fn, Counted(blocks[..i]), blocks[i].block);
      status := Append(status, fn, blocks[i].block);
    }
    assert blocks[..|blocks|] == blocks;
  }

  /** A position is covered by the folded profile iff some reported block with a non-zero
      count, in a file whose normalised name is the position's, contains it in text order. */
  lemma LookupMatchesReport(status: Profile, profiles: seq<FileProfile>, rename: Path -> Path, pos: Position)
    requires IsFoldOf(status, profiles, rename)
    ensures Covered(status, pos)
       <==> exists b :: Reported(profiles, rename, pos.filename, b) && Contains(b, pos)
  {
    assert Lookup(status, pos.filename) == BlocksOf(profiles, rename, pos.filename);
    forall b ensures b in Lookup(status, pos.filename) <==> Reported(profiles, rename, pos.filename, b) {
      BlocksOfMembers(profiles, rename, pos.filename, b);
    }
  }
}
