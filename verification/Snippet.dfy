/** The source lines shown around a mutant (internal/engine/tokenmutator.go:226-245). */
module Snippet {
  import opened Mutation

  const NEWLINE: byte := 10

  /** bytes.Split(s, "\n") */
  function Split(s: Bytes): (lines: seq<Bytes>)
    ensures |lines| > 0
  {
    if |s| == 0 then [[]]
    else
      var rest := Split(s[1..]);
      if s[0] == NEWLINE then [[]] + rest else [[s[0]] + rest[0]] + rest[1..]
  }

  /** bytes.Join(lines, "\n") */
  function Join(lines: seq<Bytes>): Bytes {
    if |lines| == 0 then [] else if |lines| == 1 then lines[0] else lines[0] + [NEWLINE] + Join(lines[1..])
  }

  predicate IsLine(l: Bytes) { NEWLINE !in l }

  function Max(a: int, b: int): int { if a < b then b else a }

  function Min(a: int, b: int): int { if a < b then a else b }

  /** The window of lines [Lo, Hi) around a target line. */
  function Hi(n: nat, target: int, context: int): int { Min(target + context, n) }

  function Lo(n: nat, target: int, context: int): int { Min(Max(target - context - 1, 0), Hi(n, target, context)) }

  method ExtractSnippet(content: Bytes, targetLine: int, contextLines: int) returns (snippet: Bytes)
    requires targetLine + contextLines >= 0
    ensures var lines := Split(content);
            && 0 <= Lo(|lines|, targetLine, contextLines) <= Hi(|lines|, targetLine, contextLines) <= |lines|
            && snippet == Join(lines[Lo(|lines|, targetLine, contextLines)..Hi(|lines|, targetLine, contextLines)])
  {
    var lines := Split(content);
    var start := targetLine - contextLines - 1;
    if start < 0 {
      start := 0;
    }
    var end := targetLine + contextLines;
    if end > |lines| {
      end := |lines|;
    }
    if start > end {
      start := end;
    }
    snippet := Join(lines[start..end]);
  }

  ghost function SnippetOf(content: Bytes, targetLine: int, contextLines: int): Bytes
    requires targetLine + contextLines >= 0
  {
    var lines := Split(content);
    Join(lines[Lo(|lines|, targetLine, contextLines)..Hi(|lines|, targetLine, contextLines)])
  }

  // ---- Split and Join are inverse ----

  lemma {:induction false} JoinSplit(s: Bytes)
    ensures Join(Split(s)) == s
  {
    if |s| > 0 {
      JoinSplit(s[1..]);
      var rest := Split(s[1..]);
      if s[0] == NEWLINE {
        assert Split(s)[1..] == rest;
        assert Join(Split(s)) == [] + [NEWLINE] + s[1..];
      } else {
        assert Split(s)[1..] == rest[1..];
      }
    }
  }

  lemma {:induction false} SplitLines(s: Bytes)
    ensures forall l :: l in Split(s) ==> IsLine(l)
  {
    if |s| > 0 {
      SplitLines(s[1..]);
      var rest := Split(s[1..]);
      assert rest[0] in rest && forall l :: l in rest[1..] ==> l in rest;
    }
  }

  lemma {:induction false} SplitOneLine(l: Bytes)
    requires IsLine(l)
    ensures Split(l) == [l]
  {
    if |l| > 0 {
      assert l[0] in l && forall x :: x in l[1..] ==> x in l;
      SplitOneLine(l[1..]);
      assert [l[0]] + l[1..] == l;
    }
  }

  lemma {:induction false} SplitFirstLine(l: Bytes, s: Bytes)
    requires IsLine(l)
    ensures Split(l + [NEWLINE] + s) == [l] + Split(s)
  {
    var t := l + [NEWLINE] + s;
    if |l| > 0 {
      SplitFirstLine(l[1..], s);
      assert t[1..] == l[1..] + [NEWLINE] + s;
      assert [l[0]] + l[1..] == l;
    } else {
      assert t[1..] == s;
    }
  }

  lemma {:induction false} SplitJoin(lines: seq<Bytes>)
    requires lines != [] && forall l :: l in lines ==> IsLine(l)
    ensures Split(Join(lines)) == lines
  {
    assert lines[0] in lines;
    if |lines| == 1 {
      SplitOneLine(lines[0]);
    } else {
      SplitJoin(lines[1..]);
      SplitFirstLine(lines[0], Join(lines[1..]));
    }
  }

  // ---- The snippet ----

  lemma {:induction false} JoinConcat(a: seq<Bytes>, b: seq<Bytes>)
    requires a != [] && b != []
    ensures Join(a + b) == Join(a) + [NEWLINE] + Join(b)
  {
    if |a| == 1 {
      assert (a + b)[1..] == b;
    } else {
      JoinConcat(a[1..], b);
      assert (a + b)[1..] == a[1..] + b;
    }
  }

  /** Consecutive lines of a text are a consecutive stretch of its bytes. */
  lemma SliceIsSubstring(lines: seq<Bytes>, lo: nat, hi: nat) returns (from: nat, to: nat)
    requires lo <= hi <= |lines|
    ensures from <= to <= |Join(lines)| && Join(lines)[from..to] == Join(lines[lo..hi])
  {
    if lo == hi {
      return 0, 0;
    }
    var tail := lines[lo..];
    assert tail == lines[lo..hi] + lines[hi..];
    var middle := Join(lines[lo..hi]);
    if hi < |lines| {
      JoinConcat(lines[lo..hi], lines[hi..]);
    } else {
      assert tail == lines[lo..hi];
    }
    assert Join(tail)[..|middle|] == middle;
    from := 0;
    assert lines == lines[..lo] + tail;
    if lo > 0 {
      JoinConcat(lines[..lo], tail);
      from := |Join(lines[..lo])| + 1;
    } else {
      assert lines == tail;
    }
    to := from + |middle|;
    assert Join(lines)[from..] == Join(tail);
    assert Join(lines)[from..to] == Join(lines)[from..][..|middle|];
  }

  /** Line line of a file of n lines is within context lines of the target. */
  predicate Near(line: int, target: int, context: int, n: int) {
    1 <= line <= n && target - context <= line <= target + context
  }

  /** For a line number and any context: the snippet is the lines near the target; it has at most
      2*context + 1 lines, they stand together in the file, the target is among them if the file
      has it, and enough context gives back the whole file. */
  lemma SnippetShowsTheTarget(content: Bytes, target: int, context: int) returns (from: nat, to: nat)
    requires target >= 1 && context >= 0
    ensures var lines := Split(content);
            var lo, hi := Lo(|lines|, target, context), Hi(|lines|, target, context);
            && hi - lo <= 2 * context + 1
            && (forall line :: Near(line, target, context, |lines|) <==> lo <= line - 1 < hi)
            && (lo <= target - 1 < hi <==> target <= |lines|)
            && (lo < hi ==> Split(SnippetOf(content, target, context)) == lines[lo..hi])
            && from <= to <= |content| && content[from..to] == SnippetOf(content, target, context)
            && (context >= |lines| && target <= |lines| ==> SnippetOf(content, target, context) == content)
  {
    var lines := Split(content);
    var lo, hi := Lo(|lines|, target, context), Hi(|lines|, target, context);
    JoinSplit(content);
    SplitLines(content);
    from, to := SliceIsSubstring(lines, lo, hi);
    if lo < hi {
      forall l | l in lines[lo..hi] ensures IsLine(l) {
        assert l in lines;
      }
      SplitJoin(lines[lo..hi]);
    }
    if context >= |lines| && target <= |lines| {
      assert lines[0..|lines|] == lines;
    }
  }
}
