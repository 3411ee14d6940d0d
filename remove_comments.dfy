/**
 * `remove_comments`: deletes every block of three or more consecutive
 * comment lines (first non-blank character a star or a double quote).
 *
 * The substitution of three or more comment lines under `re.MULTILINE` only
 * matches at line starts, so the text is modelled as its list of lines, each
 * line keeping its own `'\n'`. One repetition of the inner group is any
 * number of blank lines followed by one comment line (`\s*` crosses line
 * breaks and the star or double quote must be the first non-blank character); the greedy
 * `{3,}` takes the longest chain of repetitions, and the substitution fires
 * when that chain holds at least three comment lines. Otherwise the line is
 * copied and the scan resumes at the next line start.
 */
module RemoveComments {
  import opened Text
  import opened Collections

  // ---------------------------------------------------------------------
  // Lines

  /** First `'\n'` at or after `p`, or `|s|` when there is none. */
  function LineEnd(s: string, p: nat): (e: nat)
    requires p <= |s|
    ensures p <= e <= |s|
    ensures forall k :: p <= k < e ==> s[k] != '\n'
    ensures e < |s| ==> s[e] == '\n'
    decreases |s| - p
  {
    if p == |s| || s[p] == '\n' then p else LineEnd(s, p + 1)
  }

  /**
   * A list of lines as the text is cut at line starts: no line is empty,
   * `'\n'` occurs only as the last character of a line, and every line
   * except possibly the last ends with one.
   */
  ghost predicate WellFormed(ls: seq<string>) {
    forall i :: 0 <= i < |ls| ==>
      && ls[i] != []
      && (forall k :: 0 <= k < |ls[i]| - 1 ==> ls[i][k] != '\n')
      && (i < |ls| - 1 ==> ls[i][|ls[i]| - 1] == '\n')
  }

  /** The text cut at its line starts; joining the lines gives the text back. */
  function SplitLines(s: string): (ls: seq<string>)
    ensures WellFormed(ls)
    ensures Flatten(ls) == s
    decreases |s|
  {
    if s == [] then []
    else
      var e := LineEnd(s, 0);
      if e == |s| then
        assert Flatten([s]) == s + Flatten([]);
        [s]
      else
        var rest := SplitLines(s[e + 1..]);
        assert Flatten([s[.. e + 1]] + rest) == s[.. e + 1] + Flatten(rest) by {
          assert ([s[.. e + 1]] + rest)[1..] == rest;
        }
        assert s == s[.. e + 1] + s[e + 1..];
        [s[.. e + 1]] + rest
  }

  /** The line starting at `p` ends at `e` when `e` is the first `'\n'` at or after `p`, or `|s|`. */
  lemma {:induction false} LineEndIs(s: string, p: nat, e: nat)
    requires p <= e <= |s|
    requires forall k :: p <= k < e ==> s[k] != '\n'
    requires e < |s| ==> s[e] == '\n'
    ensures LineEnd(s, p) == e
    decreases e - p
  {
    if p < e { LineEndIs(s, p + 1, e); }
  }

  /** A line of a well-formed list: not empty, and `'\n'` at most at its end. */
  predicate IsLine(line: string) {
    line != [] && forall k :: 0 <= k < |line| - 1 ==> line[k] != '\n'
  }

  /** A single line is cut into itself. */
  lemma SplitOne(line: string)
    requires IsLine(line)
    ensures SplitLines(line) == [line]
  {
    var n := |line|;
    if line[n - 1] == '\n' {
      LineEndIs(line, 0, n - 1);
      assert line[n..] == [] && line[.. n] == line;
      assert SplitLines(line[n..]) == [];
    } else {
      LineEndIs(line, 0, n);
    }
  }

  /** A line ending with `'\n'` is cut off the front of the text that follows it. */
  lemma SplitCons(line: string, t: string)
    requires IsLine(line) && line[|line| - 1] == '\n'
    ensures SplitLines(line + t) == [line] + SplitLines(t)
  {
    var s := line + t;
    var n := |line|;
    LineEndIs(s, 0, n - 1);
    assert s[n..] == t;
    assert s[.. n] == line;
  }

  lemma {:induction false} SplitFlatten(ls: seq<string>)
    requires WellFormed(ls)
    ensures SplitLines(Flatten(ls)) == ls
    decreases |ls|
  {
    if ls != [] {
      var rest := ls[1..];
      assert IsLine(ls[0]);
      if |ls| == 1 {
        assert Flatten(ls) == ls[0] + Flatten(rest);
        assert Flatten(ls) == ls[0];
        SplitOne(ls[0]);
      } else {
        assert WellFormed(rest) by {
          forall i | 0 <= i < |rest| ensures rest[i] == ls[i + 1] { }
        }
        SplitFlatten(rest);
        assert Flatten(ls) == ls[0] + Flatten(rest);
        SplitCons(ls[0], Flatten(rest));
        assert ls == [ls[0]] + rest;
      }
    }
  }

  // ---------------------------------------------------------------------
  // Kinds of line

  /** The double quote that starts an ABAP end-of-line comment. */
  const DoubleQuote: char := '\U{22}'

  /** The first non-blank character of the line is a star or a double quote. */
  predicate IsCommentLine(line: string) {
    var c := SkipSpace(line, 0);
    c < |line| && (line[c] == '*' || line[c] == DoubleQuote)
  }

  /** The line holds only whitespace (its `'\n'` included). */
  predicate IsBlankLine(line: string) {
    SkipSpace(line, 0) == |line|
  }

  /** Neither blank nor a comment line: code, possibly with a trailing double-quote comment. */
  predicate IsCodeLine(line: string) {
    !IsCommentLine(line) && !IsBlankLine(line)
  }

  /** The code lines of `ls`, in order. */
  function CodeLines(ls: seq<string>): (r: seq<string>)
    ensures |r| <= |ls|
    ensures forall i :: 0 <= i < |r| ==> IsCodeLine(r[i])
  {
    if ls == [] then []
    else if IsCodeLine(ls[0]) then [ls[0]] + CodeLines(ls[1..])
    else CodeLines(ls[1..])
  }

  lemma {:induction false} CodeLinesAppend(a: seq<string>, b: seq<string>)
    ensures CodeLines(a + b) == CodeLines(a) + CodeLines(b)
    decreases |a|
  {
    if a != [] {
      assert (a + b)[1..] == a[1..] + b;
      CodeLinesAppend(a[1..], b);
    } else {
      assert a + b == b;
    }
  }

  // ---------------------------------------------------------------------
  // The comment block that starts at a line

  /**
   * Number of comment lines in the longest chain of repetitions of
   * the comment-line pattern starting at the first line: blank lines are skipped,
   * comment lines counted, and the chain stops at the first code line
   * (a chain that ends in blank lines does not reach past them).
   */
  function RunCount(ls: seq<string>): (n: nat)
    ensures n <= |ls|
    ensures n > 0 ==> !IsCodeLine(ls[0])
  {
    if ls == [] then 0
    else if IsCommentLine(ls[0]) then 1 + RunCount(ls[1..])
    else if IsBlankLine(ls[0]) then RunCount(ls[1..])
    else 0
  }

  /** No comment line is left in the chain that starts after the first `n` lines. */
  predicate ChainEndsAt(ls: seq<string>, n: nat) {
    n <= |ls| && RunCount(ls[n..]) == 0
  }

  /** Number of lines the chain covers: up to and including its last comment line. */
  function RunLength(ls: seq<string>): (n: nat)
    ensures n <= |ls|
    ensures n > 0 <==> RunCount(ls) > 0
    ensures forall i :: 0 <= i < n ==> !IsCodeLine(ls[i])
    ensures ChainEndsAt(ls, n)
    ensures n > 0 ==> IsCommentLine(ls[n - 1])
  {
    if ls == [] then 0
    else if IsCommentLine(ls[0]) then
      var m := RunLength(ls[1..]);
      assert ls[1 + m..] == ls[1..][m..];
      1 + m
    else if IsBlankLine(ls[0]) && RunCount(ls[1..]) > 0 then
      var m := RunLength(ls[1..]);
      assert ls[1 + m..] == ls[1..][m..];
      1 + m
    else 0
  }

  /** A chain with at least three comment lines: what the pattern's `{3,}` accepts. */
  predicate BlockStarts(ls: seq<string>) {
    RunCount(ls) >= 3
  }

  /**
   * The substitution, line start by line start: a block is deleted together
   * with its line breaks and the scan resumes after it; any other line is
   * kept verbatim.
   */
  function StripBlocks(ls: seq<string>): (r: seq<string>)
    ensures |r| <= |ls|
    decreases |ls|
  {
    if ls == [] then []
    else if BlockStarts(ls) then StripBlocks(ls[RunLength(ls)..])
    else [ls[0]] + StripBlocks(ls[1..])
  }

  /** `remove_comments(source_code)`. */
  function RemoveComments(source: string): (r: string)
    ensures |r| <= |source|
  {
    var ls := SplitLines(source);
    StripBlocksDeletesLines(ls);
    FlattenLength(ls, StripBlocks(ls));
    Flatten(StripBlocks(ls))
  }

  // ---------------------------------------------------------------------
  // Properties

  /** No line starts a block: nothing for the substitution to match. */
  predicate NoBlocks(ls: seq<string>) {
    forall i :: 0 <= i < |ls| ==> !BlockStarts(ls[i..])
  }

  /** The output consists of whole input lines, in their input order. */
  lemma {:induction false} StripBlocksDeletesLines(ls: seq<string>)
    ensures Subsequence(StripBlocks(ls), ls)
    decreases |ls|
  {
    if ls != [] {
      if BlockStarts(ls) {
        StripBlocksDeletesLines(ls[RunLength(ls)..]);
        SubsequenceOfSuffix(StripBlocks(ls), ls, RunLength(ls));
      } else {
        StripBlocksDeletesLines(ls[1..]);
        assert ([ls[0]] + StripBlocks(ls[1..]))[1..] == StripBlocks(ls[1..]);
      }
    }
  }

  /** Code lines, including lines with a double-quote comment after code, are never deleted and keep their order. */
  lemma {:induction false} StripBlocksKeepsCode(ls: seq<string>)
    ensures CodeLines(StripBlocks(ls)) == CodeLines(ls)
    decreases |ls|
  {
    if ls != [] {
      if BlockStarts(ls) {
        StripBlocksKeepsCode(ls[RunLength(ls)..]);
        SkipCommentsKeepsCode(ls, RunLength(ls));
      } else {
        StripBlocksKeepsCode(ls[1..]);
        assert ([ls[0]] + StripBlocks(ls[1..]))[1..] == StripBlocks(ls[1..]);
      }
    }
  }

  /** Dropping leading lines that hold no code leaves the code lines as they were. */
  lemma SkipCommentsKeepsCode(ls: seq<string>, n: nat)
    requires n <= |ls| && forall i :: 0 <= i < n ==> !IsCodeLine(ls[i])
    ensures CodeLines(ls[n..]) == CodeLines(ls)
  {
    NoCodeLines(ls[.. n]);
    assert ls == ls[.. n] + ls[n..];
    CodeLinesAppend(ls[.. n], ls[n..]);
  }

  lemma {:induction false} NoCodeLines(ls: seq<string>)
    requires forall i :: 0 <= i < |ls| ==> !IsCodeLine(ls[i])
    ensures CodeLines(ls) == []
    decreases |ls|
  {
    if ls != [] { NoCodeLines(ls[1..]); }
  }

  /**
   * Only blocks of three or more comment lines go: the lines come out
   * unchanged exactly when no line starts such a block, so runs of one or
   * two comment lines are left alone.
   */
  lemma {:induction false} StripBlocksUnchanged(ls: seq<string>)
    ensures StripBlocks(ls) == ls <==> NoBlocks(ls)
    decreases |ls|
  {
    if ls != [] {
      StripBlocksUnchanged(ls[1..]);
      assert forall i :: 1 <= i < |ls| ==> ls[i..] == ls[1..][i - 1..];
      if BlockStarts(ls) {
        assert ls[0..] == ls;
        assert |StripBlocks(ls)| < |ls|;
      } else {
        assert ls == [ls[0]] + ls[1..];
        assert ls[0..] == ls;
      }
    }
  }

  /** A chain cannot reach past a code line, so lines after one do not change the chain before it. */
  lemma {:induction false} ChainStopsAtCode(a: seq<string>, b: seq<string>)
    requires a != [] && IsCodeLine(a[|a| - 1])
    ensures RunCount(a + b) == RunCount(a)
    ensures RunLength(a + b) == RunLength(a) < |a|
    decreases |a|
  {
    assert (a + b)[0] == a[0];
    if |a| > 1 {
      assert (a + b)[1..] == a[1..] + b;
      ChainStopsAtCode(a[1..], b);
    }
  }

  /** Blocks never straddle a code line: the text on each side of one is stripped on its own. */
  lemma {:induction false} StripBlocksSplitsAtCode(a: seq<string>, b: seq<string>)
    requires a != [] ==> IsCodeLine(a[|a| - 1])
    ensures StripBlocks(a + b) == StripBlocks(a) + StripBlocks(b)
    decreases |a|
  {
    if a == [] {
      assert a + b == b;
    } else if BlockStarts(a) {
      var n := StripFirstBlock(a, b);
      StripBlocksSplitsAtCode(a[n..], b);
    } else {
      FirstLineEndsWithCode(a);
      StripBlocksSplitsAtCode(a[1..], b);
      StripFirstLine(a, b);
    }
  }

  /** A block at the start of `a` is the same block at the start of `a + b`. */
  lemma StripFirstBlock(a: seq<string>, b: seq<string>) returns (n: nat)
    requires a != [] && IsCodeLine(a[|a| - 1]) && BlockStarts(a)
    ensures 0 < n < |a| && IsCodeLine(a[n..][|a[n..]| - 1])
    ensures StripBlocks(a) == StripBlocks(a[n..])
    ensures StripBlocks(a + b) == StripBlocks(a[n..] + b)
  {
    ChainStopsAtCode(a, b);
    n := RunLength(a);
    SplitTail(a, b, n);
  }

  /**
   * A line that starts no block at the start of `a` starts none at the
   * start of `a + b` and is kept, so the split carries over from the rest of `a`.
   */
  lemma StripFirstLine(a: seq<string>, b: seq<string>)
    requires a != [] && IsCodeLine(a[|a| - 1]) && !BlockStarts(a)
    requires StripBlocks(a[1..] + b) == StripBlocks(a[1..]) + StripBlocks(b)
    ensures StripBlocks(a + b) == StripBlocks(a) + StripBlocks(b)
  {
    ChainStopsAtCode(a, b);
    assert !BlockStarts(a + b);
    KeptLine(a);
    KeptLine(a + b);
    SplitTail(a, b, 1);
    assert (a + b)[0] == a[0];
    ConsAppend(a[0], StripBlocks(a[1..]), StripBlocks(b));
  }

  /** Putting a line in front of two joined lists is putting it in front of the first. */
  lemma ConsAppend(line: string, x: seq<string>, y: seq<string>)
    ensures [line] + (x + y) == ([line] + x) + y
  {
  }

  /** A first line that starts no block is kept, and the scan goes on with the next line. */
  lemma KeptLine(ls: seq<string>)
    requires ls != [] && !BlockStarts(ls)
    ensures StripBlocks(ls) == [ls[0]] + StripBlocks(ls[1..])
  {
  }

  /** Dropping the first line keeps a code line at the end. */
  lemma FirstLineEndsWithCode(a: seq<string>)
    requires a != [] && IsCodeLine(a[|a| - 1])
    ensures a[1..] != [] ==> IsCodeLine(a[1..][|a[1..]| - 1])
  {
    if a[1..] != [] {
      assert a[1..][|a[1..]| - 1] == a[|a| - 1];
    }
  }

  /** Dropping fewer lines than `a` holds leaves a suffix of `a`, still ending with its code line, before `b`. */
  lemma SplitTail(a: seq<string>, b: seq<string>, n: nat)
    requires 0 < n <= |a|
    ensures (a + b)[n..] == a[n..] + b
    ensures a[n..] != [] ==> a[n..][|a[n..]| - 1] == a[|a| - 1]
  {
  }

  /**
   * Runs of one or two comment lines survive wherever they stand: a stretch
   * of lines that starts no block inside itself and ends with a code line,
   * or ends the text, comes out verbatim, whatever blocks come before or
   * after it.
   */
  lemma ShortRunsSurvive(before: seq<string>, mid: seq<string>, after: seq<string>)
    requires before != [] ==> IsCodeLine(before[|before| - 1])
    requires mid != [] && (IsCodeLine(mid[|mid| - 1]) || after == []) && NoBlocks(mid)
    ensures StripBlocks(before + mid + after) == StripBlocks(before) + mid + StripBlocks(after)
  {
    assert before + mid + after == before + (mid + after);
    StripBlocksKeepsStretch(mid, after);
    StripBlocksSplitsAtCode(before, mid + after);
  }

  /** The stretch of `ShortRunsSurvive` keeps its lines whatever follows it. */
  lemma StripBlocksKeepsStretch(mid: seq<string>, after: seq<string>)
    requires mid != [] && (IsCodeLine(mid[|mid| - 1]) || after == []) && NoBlocks(mid)
    ensures StripBlocks(mid + after) == mid + StripBlocks(after)
  {
    StripBlocksUnchanged(mid);
    if after == [] {
      assert mid + after == mid;
      assert mid + StripBlocks(after) == mid;
    } else {
      StripBlocksSplitsAtCode(mid, after);
    }
  }

  /** A blank line directly before a block is deleted with it and does not count towards the three. */
  lemma BlankLineSwallowed(blank: string, ls: seq<string>)
    requires IsBlankLine(blank)
    ensures RunCount([blank] + ls) == RunCount(ls)
    ensures BlockStarts(ls) ==> StripBlocks([blank] + ls) == StripBlocks(ls[RunLength(ls)..])
  {
    assert ([blank] + ls)[1..] == ls;
    if BlockStarts(ls) {
      assert ([blank] + ls)[1 + RunLength(ls)..] == ls[RunLength(ls)..];
    }
  }

  /**
   * A stretch the pattern deletes whole: no code line, a comment line last,
   * and at least three comment lines in all.
   */
  predicate CommentBlock(block: seq<string>) {
    && block != []
    && (forall i :: 0 <= i < |block| ==> !IsCodeLine(block[i]))
    && IsCommentLine(block[|block| - 1])
    && RunCount(block) >= 3
  }

  /**
   * A stretch without code that ends on a comment line is one chain: when
   * no comment line follows it before the next code line, the chain that
   * starts it covers exactly its lines.
   */
  lemma {:induction false} ChainCoversStretch(block: seq<string>, after: seq<string>)
    requires block != [] && forall i :: 0 <= i < |block| ==> !IsCodeLine(block[i])
    requires IsCommentLine(block[|block| - 1]) && RunCount(after) == 0
    ensures RunCount(block + after) == RunCount(block)
    ensures RunLength(block + after) == |block|
    decreases |block|
  {
    var ls := block + after;
    assert ls[0] == block[0];
    if |block| == 1 {
      assert ls[1..] == after;
      assert block[1..] == [];
    } else {
      assert ls[1..] == block[1..] + after;
      assert block[1..][|block[1..]| - 1] == block[|block| - 1];
      ChainCoversStretch(block[1..], after);
    }
  }

  /**
   * A block of three or more comment lines is deleted entirely, with every
   * line of it: when a code line (or the start of the text) comes before it
   * and no further comment line follows before the next code line, the
   * result is the text before it and the text after it, each stripped.
   */
  lemma BlockDeleted(before: seq<string>, block: seq<string>, after: seq<string>)
    requires before != [] ==> IsCodeLine(before[|before| - 1])
    requires CommentBlock(block) && RunCount(after) == 0
    ensures StripBlocks(before + block + after) == StripBlocks(before) + StripBlocks(after)
  {
    assert before + block + after == before + (block + after);
    ChainCoversStretch(block, after);
    assert (block + after)[|block|..] == after;
    StripBlocksSplitsAtCode(before, block + after);
  }

  /** Deleting blocks never lengthens the chain at the start of what follows. */
  lemma {:induction false} RunCountOfStripped(ls: seq<string>)
    ensures RunCount(StripBlocks(ls)) <= RunCount(ls)
    decreases |ls|
  {
    if ls != [] {
      if BlockStarts(ls) {
        var n := RunLength(ls);
        RunCountOfStripped(ls[n..]);
      } else {
        RunCountOfStripped(ls[1..]);
        assert ([ls[0]] + StripBlocks(ls[1..]))[1..] == StripBlocks(ls[1..]);
      }
    }
  }

  lemma {:induction false} StripBlocksIdempotent(ls: seq<string>)
    ensures StripBlocks(StripBlocks(ls)) == StripBlocks(ls)
    decreases |ls|
  {
    if ls != [] {
      if BlockStarts(ls) {
        StripBlocksIdempotent(ls[RunLength(ls)..]);
      } else {
        var t := StripBlocks(ls[1..]);
        StripBlocksIdempotent(ls[1..]);
        RunCountOfStripped(ls[1..]);
        var u := [ls[0]] + t;
        assert u[1..] == t;
        assert RunCount(u) <= RunCount(ls);
      }
    }
  }

  lemma {:induction false} StripBlocksWellFormed(ls: seq<string>)
    requires WellFormed(ls)
    ensures WellFormed(StripBlocks(ls))
    decreases |ls|
  {
    if ls != [] {
      if BlockStarts(ls) {
        WellFormedSuffix(ls, RunLength(ls));
        StripBlocksWellFormed(ls[RunLength(ls)..]);
      } else {
        WellFormedSuffix(ls, 1);
        StripBlocksWellFormed(ls[1..]);
        WellFormedCons(ls, StripBlocks(ls[1..]));
      }
    }
  }

  /** The lines after the first `n` are well formed too. */
  lemma WellFormedSuffix(ls: seq<string>, n: nat)
    requires WellFormed(ls) && n <= |ls|
    ensures WellFormed(ls[n..])
  {
    assert forall i :: 0 <= i < |ls[n..]| ==> ls[n..][i] == ls[n + i];
  }

  /** A line that was not the last, put back in front of well-formed lines. */
  lemma WellFormedCons(ls: seq<string>, t: seq<string>)
    requires WellFormed(ls) && ls != [] && WellFormed(t)
    requires t != [] ==> |ls| > 1
    ensures WellFormed([ls[0]] + t)
  {
    var r := [ls[0]] + t;
    assert forall i :: 1 <= i < |r| ==> r[i] == t[i - 1];
  }

  /** Removing comment blocks from text that has none left changes nothing. */
  lemma RemoveCommentsIdempotent(source: string)
    ensures RemoveComments(RemoveComments(source)) == RemoveComments(source)
  {
    var ls := SplitLines(source);
    StripBlocksWellFormed(ls);
    SplitFlatten(StripBlocks(ls));
    StripBlocksIdempotent(ls);
  }

  /** Length of the joined lines, counted line by line. */
  lemma {:induction false} FlattenLength(ls: seq<string>, r: seq<string>)
    requires Subsequence(r, ls)
    requires forall i :: 0 <= i < |ls| ==> ls[i] != []
    ensures |Flatten(r)| + (|ls| - |r|) <= |Flatten(ls)|
    decreases |ls|
  {
    if r != [] && ls != [] {
      assert forall i :: 0 <= i < |ls[1..]| ==> ls[1..][i] == ls[1 + i];
      if r[0] == ls[0] && Subsequence(r[1..], ls[1..]) {
        FlattenLength(ls[1..], r[1..]);
      } else {
        FlattenLength(ls[1..], r);
      }
    } else if r == [] && ls != [] {
      assert forall i :: 0 <= i < |ls[1..]| ==> ls[1..][i] == ls[1 + i];
      FlattenLength(ls[1..], r);
    }
  }

  /**
   * The text never grows, and it shrinks exactly when some line starts a
   * block of three or more comment lines.
   */
  lemma RemoveCommentsShrinks(source: string)
    ensures |RemoveComments(source)| <= |source|
    ensures RemoveComments(source) == source <==> NoBlocks(SplitLines(source))
  {
    var ls := SplitLines(source);
    var r := StripBlocks(ls);
    StripBlocksDeletesLines(ls);
    FlattenLength(ls, r);
    StripBlocksUnchanged(ls);
    if RemoveComments(source) == source {
      assert |r| == |ls|;
      SubsequenceSameLength(r, ls);
    }
  }

  lemma {:induction false} SubsequenceSameLength(r: seq<string>, ls: seq<string>)
    requires Subsequence(r, ls) && |r| == |ls|
    ensures r == ls
    decreases |ls|
  {
    if r != [] {
      if r[0] == ls[0] && Subsequence(r[1..], ls[1..]) {
        SubsequenceSameLength(r[1..], ls[1..]);
        assert r == [r[0]] + r[1..] && ls == [ls[0]] + ls[1..];
      } else {
        SubsequenceNotLonger(r, ls[1..]);
        assert false;
      }
    }
  }

  lemma {:induction false} SubsequenceNotLonger(r: seq<string>, ls: seq<string>)
    requires Subsequence(r, ls)
    ensures |r| <= |ls|
    decreases |ls|
  {
    if r != [] {
      if r[0] == ls[0] && Subsequence(r[1..], ls[1..]) {
        SubsequenceNotLonger(r[1..], ls[1..]);
      } else {
        SubsequenceNotLonger(r, ls[1..]);
      }
    }
  }

  /** Code lines of the text survive, in order and verbatim. */
  lemma RemoveCommentsKeepsCode(source: string)
    ensures CodeLines(SplitLines(RemoveComments(source))) == CodeLines(SplitLines(source))
  {
    var ls := SplitLines(source);
    StripBlocksWellFormed(ls);
    SplitFlatten(StripBlocks(ls));
    StripBlocksKeepsCode(ls);
  }

  /** The lines before `n` of a well-formed list are well formed too. */
  lemma WellFormedPrefix(ls: seq<string>, n: nat)
    requires WellFormed(ls) && n <= |ls|
    ensures WellFormed(ls[.. n])
  {
  }

  /**
   * In the text, a comment block between a code line (or the start) and
   * text whose next non-blank line is code leaves nothing behind: the
   * result is the text before it and the text after it, each cleaned.
   */
  lemma RemoveCommentsDeletesBlock(before: seq<string>, block: seq<string>, after: seq<string>)
    requires WellFormed(before + block + after)
    requires before != [] ==> IsCodeLine(before[|before| - 1])
    requires CommentBlock(block) && RunCount(after) == 0
    ensures RemoveComments(Flatten(before + block + after)) == RemoveComments(Flatten(before)) + RemoveComments(Flatten(after))
  {
    var ls := before + block + after;
    SplitFlatten(ls);
    assert ls[.. |before|] == before;
    WellFormedPrefix(ls, |before|);
    SplitFlatten(before);
    assert ls[|before| + |block|..] == after;
    WellFormedSuffix(ls, |before| + |block|);
    SplitFlatten(after);
    BlockDeleted(before, block, after);
    FlattenAppend(StripBlocks(before), StripBlocks(after));
  }
}
