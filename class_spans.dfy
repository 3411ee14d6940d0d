/**
 * The class block patterns the class tools search with:
 *
 *   class\s+\w+\s+implementation.*?endclass\.
 *   class\s+\w+\s+definition.*?endclass\.
 *
 * (case-insensitive, `.` matching line breaks, no word boundaries). Each is
 * deterministic: the greedy `\s+` and `\w+` cannot give anything back, and
 * the lazy `.*?` stops at the nearest `endclass.` after the header.
 */
module ClassSpans {
  import opened Text
  import opened SqlScan
  import opened Search

  /** `class\s+\w+\s+<kind>` at `i`: the class name's span and the end of the header. */
  function ClassHeaderAt(s: string, i: nat, kind: string): (r: Option<(Span, nat)>)
    requires i <= |s|
    ensures r.Some? ==> i + 5 < r.value.0.start < r.value.0.end < r.value.1 - |kind| && r.value.1 <= |s|
    ensures r.Some? ==> MatchesCI(s, i, "class") && MatchesCI(s, r.value.1 - |kind|, kind)
    ensures r.Some? ==> WordBetween(s, r.value.0.start, r.value.0.end)
    ensures r.Some? ==> forall k :: i + 5 <= k < r.value.0.start ==> IsSpace(s[k])
    ensures r.Some? ==> forall k :: r.value.0.end <= k < r.value.1 - |kind| ==> IsSpace(s[k])
  {
    if !MatchesCI(s, i, "class") then None
    else
      var a := SkipSpace(s, i + 5);
      var w := SkipWord(s, a);
      var b := SkipSpace(s, w);
      if a > i + 5 && w > a && b > w && MatchesCI(s, b, kind) then Some((Span(a, w), b + |kind|)) else None
  }

  /** The class block matched at `i`: the end of the match, just after the nearest `endclass.`. */
  function ClassSpanAt(s: string, i: nat, kind: string): Option<nat>
    requires i <= |s|
  {
    match ClassHeaderAt(s, i, kind)
    case None => None
    case Some(h) =>
      match FindCI(s, h.1, "endclass.")
      case None => None
      case Some(e) => Some(e + 9)
  }

  /**
   * A block matches at `i` exactly when the header does and an `endclass.`
   * follows it; the match ends just after the nearest one.
   */
  lemma ClassSpanAtFacts(s: string, i: nat, kind: string)
    requires i <= |s|
    ensures var r := ClassSpanAt(s, i, kind);
      && (r.Some? ==> ClassHeaderAt(s, i, kind).Some? && ClassHeaderAt(s, i, kind).value.1 + 9 <= r.value <= |s|)
      && (r.Some? ==> MatchesCI(s, r.value - 9, "endclass."))
      && (r.Some? ==> NoMatchIn(s, ClassHeaderAt(s, i, kind).value.1, r.value - 9, "endclass."))
      && (ClassHeaderAt(s, i, kind).Some? && r.None? ==> NoMatchIn(s, ClassHeaderAt(s, i, kind).value.1, |s| + 1, "endclass."))
  {
  }

  /** Whether a class block starts at each position. */
  function ClassSpanStarts(s: string, kind: string): nat -> bool
  {
    (i: nat) => i <= |s| && ClassSpanAt(s, i, kind).Some?
  }

  /** `re.search`: the leftmost class block at or after `p`. */
  function ClassSpanSearch(s: string, p: nat, kind: string): (r: Option<Span>)
    requires p <= |s|
    ensures r.Some? ==> p <= r.value.start <= |s| && ClassSpanAt(s, r.value.start, kind) == Some(r.value.end)
  {
    match First(ClassSpanStarts(s, kind), p, |s| + 1)
    case None => None
    case Some(i) => Some(Span(i, ClassSpanAt(s, i, kind).value))
  }

  /**
   * The search finds the leftmost block: when a block starts at `i` at or
   * after `p`, the search finds one, starting at `i` or before.
   */
  lemma ClassSpanSearchLeftmost(s: string, p: nat, i: nat, kind: string)
    requires p <= i <= |s| && ClassSpanAt(s, i, kind).Some?
    ensures ClassSpanSearch(s, p, kind).Some? && ClassSpanSearch(s, p, kind).value.start <= i
  {
    FirstIsLeftmost(ClassSpanStarts(s, kind), p, i, |s| + 1);
  }

  /** A class block: `class` at the start, `endclass.` at the end, and a header between them. */
  predicate IsClassBlock(d: string) {
    |d| >= 14 && MatchesCI(d, 0, "class") && MatchesCI(d, |d| - 9, "endclass.")
  }

  /** The text of a matched block is a class block. */
  lemma ClassSpanShape(s: string, i: nat, e: nat, kind: string)
    requires i <= |s| && ClassSpanAt(s, i, kind) == Some(e)
    ensures i + 14 <= e <= |s|
    ensures IsClassBlock(s[i .. e])
  {
    ClassSpanAtFacts(s, i, kind);
    var h := ClassHeaderAt(s, i, kind).value;
    assert i + 5 < h.1 && h.1 + 9 <= e;
    MatchesCISlice(s, i, e, i, "class");
    MatchesCISlice(s, i, e, e - 9, "endclass.");
  }
}
