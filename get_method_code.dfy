/**
 * `GetMethodCode._run`: the source of one method of a class, from its
 * `METHOD` header through the nearest following `ENDMETHOD`.
 *
 * The pattern is `METHOD\s+(?:\w+~)?<name>\b.*?ENDMETHOD`, case-insensitive,
 * with `.` matching line breaks. The method name is spliced into the pattern
 * unescaped; the model takes names made of word characters and `~`, which
 * the pattern then matches literally.
 */
module GetMethodCode {
  import opened Text
  import opened Errors
  import opened ClassTool
  import opened Search

  /** A character a method name may hold: `\w` or the interface separator `~`. */
  predicate IsNameChar(c: char) {
    IsWord(c) || c == '~'
  }

  predicate ValidMethodName(name: string) {
    forall k :: 0 <= k < |name| ==> IsNameChar(name[k])
  }

  /** `<name>\b.*?ENDMETHOD` at `q`: the end of the match, just after the nearest `endmethod`. */
  function NameThenBody(s: string, q: nat, name: string): (r: Option<nat>)
    requires q <= |s|
    ensures r.Some? ==> q + |name| + 9 <= r.value <= |s|
    ensures r.Some? ==> MatchesCI(s, q, LowerStr(name)) && BoundaryAt(s, q + |name|)
    ensures r.Some? ==> MatchesCI(s, r.value - 9, "endmethod") && NoMatchIn(s, q + |name|, r.value - 9, "endmethod")
  {
    if !MatchesCI(s, q, LowerStr(name)) then None
    else if !BoundaryAt(s, q + |name|) then None
    else
      match FindCI(s, q + |name|, "endmethod")
      case None => None
      case Some(e) => Some(e + 9)
  }

  /** Where a match of the pattern at `i` puts the name (after the optional `word~`) and where it ends. */
  datatype Hit = Hit(name: nat, end: nat)

  /** The interface qualifier `\w+~` read at `a`: the position just after its `~`. */
  function QualifierEnd(s: string, a: nat): (r: Option<nat>)
    requires a <= |s|
    ensures r.Some? ==> a + 2 <= r.value <= |s| && s[r.value - 1] == '~'
    ensures r.Some? ==> forall k :: a <= k < r.value - 1 ==> IsWord(s[k])
  {
    var w := SkipWord(s, a);
    if w > a && w < |s| && s[w] == '~' then Some(w + 1) else None
  }

  /**
   * The pattern tried at `i`. The greedy `\s+` and `\w+` cannot give
   * anything back, so the engine first tries the qualified reading and,
   * when that fails, the reading without the qualifier.
   */
  function MethodCodeAt(s: string, i: nat, name: string): Option<Hit>
    requires i <= |s|
  {
    if !MatchesCI(s, i, "method") then None
    else
      var a := SkipSpace(s, i + 6);
      if a == i + 6 then None
      else
        var qualified := QualifierEnd(s, a);
        var viaQualifier := if qualified.Some? then NameThenBody(s, qualified.value, name) else None;
        if viaQualifier.Some? then Some(Hit(qualified.value, viaQualifier.value))
        else
          match NameThenBody(s, a, name)
          case None => None
          case Some(e) => Some(Hit(a, e))
  }

  /**
   * A match at `i` starts with `method` and whitespace, and the name it
   * found, after the optional qualifier, is followed by the rest of the
   * pattern up to the end of the match.
   */
  lemma MethodCodeAtFacts(s: string, i: nat, name: string)
    requires i <= |s|
    ensures var r := MethodCodeAt(s, i, name);
      && (r.Some? ==> MatchesCI(s, i, "method") && i + 6 < SkipSpace(s, i + 6) <= r.value.name <= |s|)
      && (r.Some? ==> NameThenBody(s, r.value.name, name) == Some(r.value.end))
  {
  }

  /** Whether the pattern matches at each position. */
  function MethodCodeStarts(s: string, name: string): nat -> bool
  {
    (i: nat) => i <= |s| && MethodCodeAt(s, i, name).Some?
  }

  /** `re.search`: the leftmost match at or after `p`, as the span of the matched text. */
  function MethodCodeSearch(s: string, p: nat, name: string): (r: Option<(nat, Hit)>)
    requires p <= |s|
    ensures r.Some? ==> p <= r.value.0 <= |s| && MethodCodeAt(s, r.value.0, name) == Some(r.value.1)
  {
    match First(MethodCodeStarts(s, name), p, |s| + 1)
    case None => None
    case Some(i) => Some((i, MethodCodeAt(s, i, name).value))
  }

  /**
   * The search finds the leftmost match: when the pattern matches at `i` at
   * or after `p`, the search finds a match, at `i` or before.
   */
  lemma MethodCodeSearchLeftmost(s: string, p: nat, i: nat, name: string)
    requires p <= i <= |s| && MethodCodeAt(s, i, name).Some?
    ensures MethodCodeSearch(s, p, name).Some? && MethodCodeSearch(s, p, name).value.0 <= i
  {
    FirstIsLeftmost(MethodCodeStarts(s, name), p, i, |s| + 1);
  }

  /** The message raised when the method is not found. */
  function NoMethodMessage(methName: string): string
  {
    "Failed to extract source code for the method: " + methName + "."
  }

  /** The tool: the method's source text, or the error raised. */
  function GetMethodCode(repo: map<string, string>, className: string, methName: string): (r: Result<string>)
    requires ValidMethodName(methName)
    ensures className == [] ==> r == Err(ValueError("`class_name` cannot be empty."))
    ensures className != [] && methName == [] ==> r == Err(ValueError("`meth_name` cannot be empty."))
    ensures className != [] && methName != [] && ToolSource(repo, className).Err? ==>
      r == Err(ToolSource(repo, className).error)
    ensures methName != [] && ToolSource(repo, className).Ok? && MethodCodeSearch(ToolSource(repo, className).value, 0, methName).None? ==>
      r == Err(ValueError(NoMethodMessage(methName)))
    ensures (className != [] && methName != [] && ToolSource(repo, className).Ok? &&
             MethodCodeSearch(ToolSource(repo, className).value, 0, methName).Some?) ==> r.Ok?
    ensures r.Ok? ==> methName != [] && ToolSource(repo, className).Ok?
    ensures r.Ok? ==> exists i: nat, h: Hit ::
      MethodCodeSearch(ToolSource(repo, className).value, 0, methName) == Some((i, h))
      && i <= h.end <= |ToolSource(repo, className).value|
      && r.value == ToolSource(repo, className).value[i .. h.end]
  {
    if className == [] then Err(ValueError("`class_name` cannot be empty."))
    else if methName == [] then Err(ValueError("`meth_name` cannot be empty."))
    else
      match ToolSource(repo, className)
      case Err(e) => Err(e)
      case Ok(source) =>
        match MethodCodeSearch(source, 0, methName)
        case None => Err(ValueError(NoMethodMessage(methName)))
        case Some(m) =>
          MethodCodeAtFacts(source, m.0, methName);
          Ok(source[m.0 .. m.1.end])
  }

  /**
   * The text of a match: it starts with `method`, ends with `endmethod`, holds
   * the name followed by a word boundary, and no `endmethod` starts outside
   * the optional qualifier and the name except the final one.
   */
  lemma MethodCodeShape(s: string, i: nat, h: Hit, name: string)
    requires i <= |s| && MethodCodeAt(s, i, name) == Some(h)
    ensures i + 6 < h.name && h.name + |name| + 9 <= h.end <= |s|
    ensures MethodText(s[i .. h.end], SkipSpace(s, i + 6) - i, h.name - i, LowerStr(name))
  {
    MethodCodeAtFacts(s, i, name);
    MethodTextSlice(s, i, SkipSpace(s, i + 6), h.name, h.end, name);
  }

  /**
   * The text `t` of a match whose qualifier starts at `a` and whose name
   * starts at `q`: `method` first, `endmethod` last, the name at `q`, and
   * no other `endmethod` before the qualifier or between the name and the end.
   */
  predicate MethodText(t: string, a: nat, q: nat, lname: string) {
    && |t| >= 9
    && MatchesCI(t, 0, "method") && MatchesCI(t, |t| - 9, "endmethod") && MatchesCI(t, q, lname)
    && NoMatchIn(t, 0, a, "endmethod") && NoMatchIn(t, q + |lname|, |t| - 9, "endmethod")
  }

  /** The shape of a match, read in the text of the match alone. */
  lemma MethodTextSlice(s: string, i: nat, a: nat, q: nat, e: nat, name: string)
    requires i <= |s| && MatchesCI(s, i, "method") && a == SkipSpace(s, i + 6)
    requires a <= q <= |s| && NameThenBody(s, q, name) == Some(e)
    ensures MethodText(s[i .. e], a - i, q - i, LowerStr(name))
  {
    LeadHasNoEndmethod(s, i);
    MatchesCISlice(s, i, e, i, "method");
    NoMatchSlice(s, i, e, 0, a - i, "endmethod");
    MatchesCISlice(s, i, e, e - 9, "endmethod");
    MatchesCISlice(s, i, e, q, LowerStr(name));
    NoMatchSlice(s, i, e, q + |name| - i, e - i - 9, "endmethod");
  }

  /** `method` and the spaces after it hold no `endmethod`. */
  lemma LeadHasNoEndmethod(s: string, i: nat)
    requires i <= |s| && MatchesCI(s, i, "method")
    ensures NoMatchIn(s, i, SkipSpace(s, i + 6), "endmethod")
  {
    var kw := "endmethod";
    var mt := "method";
    var a := SkipSpace(s, i + 6);
    forall k | i <= k < a ensures !MatchesCI(s, k, kw) {
      if k == i + 1 {
        assert Lower(s[i + 2]) == mt[2];
        assert Lower(s[k + 1]) != kw[1];
      } else if k < i + 6 {
        assert Lower(s[k]) == mt[k - i];
        assert Lower(s[k]) != kw[0];
      } else {
        assert IsSpace(s[k]);
        assert Lower(s[k]) != kw[0];
      }
    }
  }

  /** A header `METHOD <name>` followed by a word boundary and an `ENDMETHOD` later is a match. */
  lemma PlainHeaderMatches(s: string, i: nat, name: string)
    requires i <= |s| && MatchesCI(s, i, "method")
    requires var a := SkipSpace(s, i + 6); a > i + 6 && NameThenBody(s, a, name).Some?
    ensures MethodCodeAt(s, i, name).Some?
  {
  }

  /** A header `METHOD <iface>~<name>` followed by a word boundary and an `ENDMETHOD` later is a match. */
  lemma QualifiedHeaderMatches(s: string, i: nat, name: string)
    requires i <= |s| && MatchesCI(s, i, "method")
    requires var a := SkipSpace(s, i + 6);
      a > i + 6 && QualifierEnd(s, a).Some? && NameThenBody(s, QualifierEnd(s, a).value, name).Some?
    ensures MethodCodeAt(s, i, name) == Some(Hit(QualifierEnd(s, SkipSpace(s, i + 6)).value,
      NameThenBody(s, QualifierEnd(s, SkipSpace(s, i + 6)).value, name).value))
  {
  }

  /**
   * The word boundary after the name: when the word after `METHOD` is longer
   * than the requested name and carries no qualifier, the header does not
   * match (a request for `get` never matches `METHOD get_data`).
   */
  lemma LongerWordDoesNotMatch(s: string, i: nat, name: string)
    requires i + 6 <= |s| && name != [] && ValidMethodName(name)
    requires var a := SkipSpace(s, i + 6); a + |name| < SkipWord(s, a)
    requires var w := SkipWord(s, SkipSpace(s, i + 6)); w == |s| || s[w] != '~'
    ensures MethodCodeAt(s, i, name).None?
  {
    if MatchesCI(s, i, "method") {
      var a := SkipSpace(s, i + 6);
      var w := SkipWord(s, a);
      assert QualifierEnd(s, a).None?;
      var q := a + |name|;
      assert IsWord(s[q - 1]) && IsWord(s[q]);
      assert !BoundaryAt(s, q);
    }
  }
}
