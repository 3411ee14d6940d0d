/**
 * `extract_class_definition`: trims a class's source down to its definition
 * header, section headers and method declarations.
 *
 * The source is split at `\n`, each line is stripped of surrounding
 * whitespace and classified by its lower-cased form, and a `keep_line` flag
 * (initially off) decides the fate of lines that match no rule. The kept
 * lines are joined again with `\n`.
 */
module GetClassDefinition {
  import opened Text
  import opened Collections
  import opened Lines

  /** `kw` occurs in `s` at `k`. */
  predicate OccursAt(s: string, k: nat, kw: string) {
    k + |kw| <= |s| && s[k .. k + |kw|] == kw
  }

  /** `kw in s` for strings: `kw` occurs in `s` as a substring. */
  predicate Occurs(s: string, kw: string) {
    exists k: nat :: k <= |s| && OccursAt(s, k, kw)
  }

  /** The rule that decides a line, tried in the order the function tries them. */
  datatype LineKind =
    | ClassHeader         // starts with `class ` and mentions `definition`: kept, keeping on
    | Skipped             // mentions macro/types/data/class-data/constants: dropped, keeping off
    | SectionHeader       // exactly a public/protected/private section line: kept, keeping on
    | MethodsDeclaration  // starts with `methods` or `class-methods`: kept, keeping on
    | Plain               // anything else: kept iff keeping is on

  /** The rule for a stripped, lower-cased line. */
  function Classify(lower: string): LineKind
  {
    if StartsWith(lower, "class ") && Occurs(lower, "definition") then ClassHeader
    else if Occurs(lower, "macro") || Occurs(lower, "types") || Occurs(lower, "data")
      || Occurs(lower, "class-data") || Occurs(lower, "constants") then Skipped
    else if lower == "public section." || lower == "protected section." || lower == "private section." then SectionHeader
    else if StartsWith(lower, "methods") || StartsWith(lower, "class-methods") then MethodsDeclaration
    else Plain
  }

  /** The rule for an input line: its stripped form, lower-cased, classified. */
  function KindOf(line: string): LineKind {
    Classify(LowerStr(Strip(line)))
  }

  /** The loop's state: the lines kept so far and the `keep_line` flag. */
  datatype Trim = Trim(kept: seq<string>, keep: bool)

  /** The state after the lines `lines`, starting from nothing kept and keeping off. */
  function TrimLines(lines: seq<string>): (t: Trim)
    ensures |t.kept| <= |lines|
    decreases |lines|
  {
    if lines == [] then Trim([], false)
    else Step(TrimLines(lines[..|lines| - 1]), lines[|lines| - 1])
  }

  /** One pass of the loop: the line's rule decides whether it is kept and what `keep_line` becomes. */
  function Step(t: Trim, line: string): (r: Trim)
    ensures r.kept == t.kept || r.kept == t.kept + [Strip(line)]
  {
    match KindOf(line)
    case Skipped => Trim(t.kept, false)
    case Plain => if t.keep then Trim(t.kept + [Strip(line)], true) else t
    case _ => Trim(t.kept + [Strip(line)], true)
  }

  /** The function's result for `abapCode`. */
  function ClassDefinitionText(abapCode: string): string {
    JoinWith(TrimLines(SplitOn(abapCode, '\n')).kept, "\n")
  }

  /** `extract_class_definition(abap_code)`. */
  method ExtractClassDefinition(abapCode: string) returns (r: string)
    ensures r == ClassDefinitionText(abapCode)
  {
    var lines := SplitOn(abapCode, '\n');
    var trimmed: seq<string> := [];
    var keepLine := false;
    for i := 0 to |lines|
      invariant TrimLines(lines[.. i]) == Trim(trimmed, keepLine)
    {
      assert lines[.. i + 1][.. i] == lines[.. i];
      assert TrimLines(lines[.. i + 1]) == Step(Trim(trimmed, keepLine), lines[i]);
      var original := Strip(lines[i]);
      var lower := LowerStr(original);
      assert KindOf(lines[i]) == Classify(lower);
      if StartsWith(lower, "class ") && Occurs(lower, "definition") {
        assert Classify(lower) == ClassHeader;
        keepLine := true;
        trimmed := trimmed + [original];
        continue;
      }
      if Occurs(lower, "macro") || Occurs(lower, "types") || Occurs(lower, "data")
        || Occurs(lower, "class-data") || Occurs(lower, "constants")
      {
        assert Classify(lower) == Skipped;
        keepLine := false;
        continue;
      }
      if lower == "public section." || lower == "protected section." || lower == "private section." {
        assert Classify(lower) == SectionHeader;
        keepLine := true;
        trimmed := trimmed + [original];
        continue;
      }
      if StartsWith(lower, "methods") || StartsWith(lower, "class-methods") {
        assert Classify(lower) == MethodsDeclaration;
        keepLine := true;
        trimmed := trimmed + [original];
        continue;
      }
      assert Classify(lower) == Plain;
      if keepLine {
        trimmed := trimmed + [original];
      }
    }
    assert lines[..|lines|] == lines;
    r := JoinWith(trimmed, "\n");
  }

  /** Every input line, stripped. */
  function StripAll(lines: seq<string>): (r: seq<string>)
    ensures |r| == |lines|
    ensures forall k :: 0 <= k < |lines| ==> r[k] == Strip(lines[k])
  {
    seq(|lines|, k requires 0 <= k < |lines| => Strip(lines[k]))
  }

  /** The output lines are stripped input lines, in their input order. */
  lemma {:induction false} KeptAreStrippedInOrder(lines: seq<string>)
    ensures Subsequence(TrimLines(lines).kept, StripAll(lines))
    decreases |lines|
  {
    if lines != [] {
      var init := lines[..|lines| - 1];
      var line := lines[|lines| - 1];
      KeptAreStrippedInOrder(init);
      assert lines == init + [line];
      StripAllSnoc(init, line);
      KeptGrowsByOne(init, line);
      SubsequenceStep(TrimLines(init).kept, StripAll(init), Strip(line), TrimLines(init + [line]).kept);
    }
  }

  lemma StripAllSnoc(init: seq<string>, line: string)
    ensures StripAll(init + [line]) == StripAll(init) + [Strip(line)]
  {
  }

  /** One more line is either dropped or appended, stripped. */
  lemma KeptGrowsByOne(init: seq<string>, line: string)
    ensures var after := TrimLines(init + [line]).kept;
      after == TrimLines(init).kept || after == TrimLines(init).kept + [Strip(line)]
  {
    assert (init + [line])[..|init|] == init;
    assert TrimLines(init + [line]) == Step(TrimLines(init), line);
  }

  /** One more element either skipped or taken keeps a subsequence. */
  lemma SubsequenceStep(kept: seq<string>, all: seq<string>, x: string, after: seq<string>)
    requires Subsequence(kept, all)
    requires after == kept || after == kept + [x]
    ensures Subsequence(after, all + [x])
  {
    if after == kept {
      SubsequenceSnocSkip(kept, all, x);
    } else {
      SubsequenceSnocBoth(kept, all, x);
    }
  }

  /** A line that matches no rule is dropped while keeping is off: before the first header or declaration nothing is kept. */
  lemma {:induction false} NothingBeforeFirstHeader(lines: seq<string>)
    requires forall k :: 0 <= k < |lines| ==> KindOf(lines[k]) == Plain || KindOf(lines[k]) == Skipped
    ensures TrimLines(lines) == Trim([], false)
    decreases |lines|
  {
    if lines != [] {
      NothingBeforeFirstHeader(lines[..|lines| - 1]);
    }
  }

  /** No kept line mentions a skipped keyword unless it is a class definition header. */
  lemma {:induction false} KeptAreNeverSkipped(lines: seq<string>)
    ensures forall k :: 0 <= k < |TrimLines(lines).kept| ==>
      Classify(LowerStr(TrimLines(lines).kept[k])) != Skipped
    decreases |lines|
  {
    if lines != [] {
      var init := lines[..|lines| - 1];
      var line := lines[|lines| - 1];
      KeptAreNeverSkipped(init);
      StripIdempotent(line);
    }
  }

  /** The fate of one more line, given the state before it. */
  lemma LineFate(lines: seq<string>, line: string)
    ensures var before := TrimLines(lines); var after := TrimLines(lines + [line]);
      && (KindOf(line) == Skipped ==> after == Trim(before.kept, false))
      && (KindOf(line) in {ClassHeader, SectionHeader, MethodsDeclaration} ==> after == Trim(before.kept + [Strip(line)], true))
      && (KindOf(line) == Plain ==> after == if before.keep then Trim(before.kept + [Strip(line)], true) else before)
  {
    assert (lines + [line])[..|lines|] == lines;
  }

  /** A `methods` declaration that mentions `data` is dropped: the keyword rule comes first. */
  lemma DataRuleBeforeMethodsRule(lower: string)
    requires StartsWith(lower, "methods") && Occurs(lower, "data")
    ensures Classify(lower) == Skipped
  {
    assert lower[0] == "methods"[0];
    assert !StartsWith(lower, "class ");
  }

  /** The output's lines are exactly the kept lines, when there are any. */
  lemma OutputLines(abapCode: string)
    requires TrimLines(SplitOn(abapCode, '\n')).kept != []
    ensures SplitOn(ClassDefinitionText(abapCode), '\n') == TrimLines(SplitOn(abapCode, '\n')).kept
  {
    var lines := SplitOn(abapCode, '\n');
    KeptHaveNoBreak(lines);
    SplitJoin(TrimLines(lines).kept, '\n');
  }

  /** Kept lines contain no line break: they are pieces of a split at `\n`. */
  lemma {:induction false} KeptHaveNoBreak(lines: seq<string>)
    requires forall k :: 0 <= k < |lines| ==> '\n' !in lines[k]
    ensures forall k :: 0 <= k < |TrimLines(lines).kept| ==> '\n' !in TrimLines(lines).kept[k]
    decreases |lines|
  {
    if lines != [] {
      KeptHaveNoBreak(lines[..|lines| - 1]);
      StripKeepsOut(lines[|lines| - 1], '\n');
    }
  }
}
