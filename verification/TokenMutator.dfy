/** Applying one mutant to one directory and taking it back (internal/engine/node.go,
    internal/engine/tokenmutator.go:110-214). I/O faults are inputs of the calls. */
module TokenMutators {
  import opened Mutation
  import opened MutationMeaning
  import Snippet

  /** A token inside a shared AST; the array is the AST's tokens in preorder. */
  class NodeToken {
    const ast: array<Token>
    const index: nat

    constructor (ast: array<Token>, index: nat)
      requires index < ast.Length
      ensures this.ast == ast && this.index == index && Valid()
    {
      this.ast := ast;
      this.index := index;
    }

    ghost predicate Valid() { index < ast.Length }

    function Tok(): (t: Token)
      requires Valid()
      reads ast
      ensures t == ast[..][index]
    {
      ast[index]
    }

    /** The write is seen by every reference to this token of the AST and by no other. */
    method SetTok(t: Token)
      requires Valid()
      modifies ast
      ensures ast[..] == old(ast[..])[index := t]
      ensures forall other: NodeToken :: old(allocated(other)) && other.Valid() && other.ast == ast ==>
                other.Tok() == if other.index == index then t else old(other.Tok())
    {
      ast[index] := t;
    }
  }

  class FileLock {
    var locked: bool

    constructor ()
      ensures !locked
    {
      locked := false;
    }

    method Lock()
      requires !locked
      modifies this
      ensures locked
    {
      locked := true;
    }

    method Unlock()
      requires locked
      modifies this
      ensures !locked
    {
      locked := false;
    }
  }

  /** One work directory. */
  class Disk {
    var files: map<Path, Bytes>

    constructor (files: map<Path, Bytes>)
      ensures this.files == files
    {
      this.files := files;
    }

    method ReadFile(p: Path, fault: bool) returns (r: Option<Bytes>)
      ensures r == if fault || p !in files then None else Some(files[p])
    {
      r := if fault || p !in files then None else Some(files[p]);
    }

    /** A failing write leaves unknown content behind. */
    method WriteFile(p: Path, payload: Bytes, fault: Option<Bytes>) returns (ok: bool)
      modifies this
      ensures ok <==> fault == None
      ensures files == old(files)[p := if fault == None then payload else fault.value]
    {
      files := files[p := if fault == None then payload else fault.value];
      ok := fault == None;
    }
  }

  datatype Faults = Faults(read: bool, write: Option<Bytes>)

  const NO_FAULTS: Faults := Faults(false, None)

  lemma MutatedAstMeans(kind: Kind, ast: seq<Token>, index: nat)
    requires index < |ast|
    ensures kind in KindsOf(ast[index]) ==>
              MutatesOne(kind, ast, index, ast[index := Replacement(kind, ast[index])])
  {
    if kind in KindsOf(ast[index]) {
      ReplacementMutates(kind, ast[index]);
    }
  }

  class TokenMutator {
    const fileName: Path
    const line: LineNumber
    const render: seq<Token> -> Option<Bytes>     // the printer; None is its error
    const tokenNode: NodeToken
    var workDir: Path
    var mutantType: Kind
    var status: Status
    var origFile: Bytes
    var actualToken: Token
    var origSnippet: Bytes
    var mutatedSnippet: Bytes

    constructor (fileName: Path, line: LineNumber, render: seq<Token> -> Option<Bytes>, tokenNode: NodeToken,
                 kind: Kind, status: Status)
      requires tokenNode.Valid()
      ensures this.fileName == fileName && this.line == line && this.render == render && this.tokenNode == tokenNode
      ensures mutantType == kind && this.status == status && workDir == "" && Valid()
    {
      this.fileName, this.line, this.render, this.tokenNode := fileName, line, render, tokenNode;
      mutantType, this.status, workDir := kind, status, "";
      origFile, actualToken, origSnippet, mutatedSnippet := [], Illegal, [], [];
    }

    ghost predicate Valid() { tokenNode.Valid() }

    function FilePath(): Path
      reads this
    {
      workDir + "/" + fileName
    }

    /** The AST with this mutant's token substituted and every other token as it stands. */
    ghost function MutatedAst(ast: seq<Token>): seq<Token>
      requires tokenNode.index < |ast|
      reads this
    {
      ast[tokenNode.index := Replacement(mutantType, ast[tokenNode.index])]
    }

    /** If the type is tried on the token at all, b is the print of ast with that one token turned
        into what the type says. */
    ghost predicate Prints(ast: seq<Token>, b: Bytes)
      requires tokenNode.index < |ast|
      reads this
    {
      mutantType in KindsOf(ast[tokenNode.index]) ==>
        exists toks :: MutatesOne(mutantType, ast, tokenNode.index, toks) && render(toks) == Some(b)
    }

    /** Apply can read the file. */
    ghost predicate Readable(disk: Disk, faults: Faults)
      reads this, disk
    {
      !faults.read && FilePath() in disk.files
    }

    ghost predicate Writable(ast: seq<Token>, faults: Faults)
      requires tokenNode.index < |ast|
      reads this
    {
      render(MutatedAst(ast)).Some? && faults.write == None
    }

    method SetWorkdir(path: Path)
      modifies `workDir
      ensures workDir == path
    {
      workDir := path;
    }

    /** On success the file is the print of the AST with one token turned into what the mutant's
        type says, and the AST is as before. A read error changes neither AST nor directory. A failed write leaves the
        substituted token in the AST: the restoring SetTok is not reached. The lock is free
        again on every path. */
    method Apply(disk: Disk, lock: FileLock, faults: Faults) returns (ok: bool)
      requires Valid() && !lock.locked
      modifies `origFile, `actualToken, `origSnippet, `mutatedSnippet, disk, lock, tokenNode.ast
      ensures !lock.locked
      ensures ok <==> old(Readable(disk, faults)) && old(Writable(tokenNode.ast[..], faults))
      ensures old(Readable(disk, faults)) ==> origFile == old(disk.files[FilePath()])
      ensures ok ==> tokenNode.ast[..] == old(tokenNode.ast[..])
      ensures ok ==> disk.files == old(disk.files)[FilePath() := render(MutatedAst(old(tokenNode.ast[..]))).value]
      ensures ok ==> Prints(old(tokenNode.ast[..]), disk.files[FilePath()])
      ensures ok ==> origSnippet == Snippet.SnippetOf(origFile, line, 3)
      ensures ok ==> mutatedSnippet == Snippet.SnippetOf(disk.files[FilePath()], line, 3)
      ensures !old(Readable(disk, faults)) ==>
                tokenNode.ast[..] == old(tokenNode.ast[..]) && disk.files == old(disk.files)
      ensures !ok && old(Readable(disk, faults)) ==>
                && tokenNode.ast[..] == MutatedAst(old(tokenNode.ast[..]))
                && disk.files == if render(MutatedAst(old(tokenNode.ast[..]))) == None then old(disk.files)
                                 else old(disk.files)[FilePath() := faults.write.value]
    {
      lock.Lock();
      var content := disk.ReadFile(FilePath(), faults.read);
      if content == None {
        origFile := [];
        lock.Unlock();
        return false;
      }
      origFile := content.value;
      origSnippet := Snippet.ExtractSnippet(origFile, line, 3);
      actualToken := tokenNode.Tok();
      tokenNode.SetTok(Replacement(mutantType, tokenNode.Tok()));
      ok := WriteMutatedFile(disk, faults);
      if !ok {
        lock.Unlock();
        return;
      }
      tokenNode.SetTok(actualToken);
      assert tokenNode.ast[..] == old(tokenNode.ast[..]);
      MutatedAstMeans(mutantType, tokenNode.ast[..], tokenNode.index);
      lock.Unlock();
    }

    method WriteMutatedFile(disk: Disk, faults: Faults) returns (ok: bool)
      requires Valid()
      modifies `mutatedSnippet, disk
      ensures ok <==> render(tokenNode.ast[..]).Some? && faults.write == None
      ensures disk.files == if render(tokenNode.ast[..]) == None then old(disk.files)
                            else old(disk.files)[FilePath() := if ok then render(tokenNode.ast[..]).value
                                                              else faults.write.value]
      ensures ok ==> mutatedSnippet == Snippet.SnippetOf(render(tokenNode.ast[..]).value, line, 3)
    {
      var payload := render(tokenNode.ast[..]);
      if payload == None {
        return false;
      }
      ok := disk.WriteFile(FilePath(), payload.value, faults.write);
      if ok {
        mutatedSnippet := Snippet.ExtractSnippet(payload.value, line, 3);
      }
    }

    /** Rollback writes back the bytes Apply read, and forgets them. */
    method Rollback(disk: Disk, fault: Option<Bytes>) returns (ok: bool)
      modifies `origFile, disk
      ensures ok <==> fault == None
      ensures disk.files == old(disk.files)[FilePath() := if ok then old(origFile) else fault.value]
      ensures origFile == []
    {
      ok := disk.WriteFile(FilePath(), origFile, fault);
      origFile := [];
    }

    /** A successful Apply followed by a successful Rollback leaves AST and directory exactly
        as they were; in between the directory held the mutant. */
    method RoundTrip(disk: Disk, lock: FileLock) returns (applied: bool, ghost between: map<Path, Bytes>)
      requires Valid() && !lock.locked
      requires Writable(tokenNode.ast[..], NO_FAULTS)
      modifies this, disk, lock, tokenNode.ast
      ensures !lock.locked && workDir == old(workDir) && mutantType == old(mutantType)
      ensures tokenNode.ast[..] == old(tokenNode.ast[..]) && disk.files == old(disk.files)
      ensures applied <==> FilePath() in old(disk.files)
      ensures applied ==>
                between == old(disk.files)[FilePath() := render(MutatedAst(old(tokenNode.ast[..]))).value]
    {
      applied := Apply(disk, lock, NO_FAULTS);
      between := disk.files;
      if applied {
        var _ := Rollback(disk, None);
        assert disk.files == old(disk.files);
      }
    }
  }
}
