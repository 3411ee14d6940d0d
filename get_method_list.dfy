/**
 * `GetMethodList._run`: the names of the methods implemented in a class.
 *
 * The tool takes the first `class <name> implementation … endclass.` block
 * of the class's source and collects, with `findall`, the names in lines of
 * the form `^\s*METHOD\s+([\w~]+)\s*\.` (case-insensitive, `^` at every line
 * start), lower-cased and in text order. Every part of that pattern is
 * greedy and followed by something it cannot match itself, so it matches
 * at a position in at most one way.
 */
module GetMethodList {
  import opened Text
  import opened Errors
  import opened SqlScan
  import opened ClassSpans
  import opened ClassTool
  import opened Search
  import GetMethodCode

  /** `^` in multi-line mode: the start of the text or just after a `\n`. */
  predicate LineStart(s: string, p: nat)
    requires p <= |s|
  {
    p == 0 || s[p - 1] == '\n'
  }

  /** End of the run of `[\w~]` characters starting at `p`. */
  function SkipName(s: string, p: nat): (q: nat)
    requires p <= |s|
    ensures p <= q <= |s|
    ensures forall k :: p <= k < q ==> GetMethodCode.IsNameChar(s[k])
    ensures q < |s| ==> !GetMethodCode.IsNameChar(s[q])
    decreases |s| - p
  {
    if p < |s| && GetMethodCode.IsNameChar(s[p]) then SkipName(s, p + 1) else p
  }

  /** The header pattern at `p`: the span of the name and the end of the match. */
  function HeaderAt(s: string, p: nat): Option<(Span, nat)>
    requires p <= |s|
  {
    if !LineStart(s, p) then None
    else
      var q := SkipSpace(s, p);
      if !MatchesCI(s, q, "method") then None
      else
        var a := SkipSpace(s, q + 6);
        var n := SkipName(s, a);
        var d := SkipSpace(s, n);
        if a > q + 6 && n > a && d < |s| && s[d] == '.' then Some((Span(a, n), d + 1)) else None
  }

  /**
   * A header starts a line, then optional whitespace, `method`, whitespace,
   * a non-empty `[\w~]` name, optional whitespace and a full stop, which
   * ends the match.
   */
  lemma HeaderAtFacts(s: string, p: nat)
    requires p <= |s|
    ensures var r := HeaderAt(s, p);
      && (r.Some? ==> LineStart(s, p) && MatchesCI(s, SkipSpace(s, p), "method"))
      && (r.Some? ==> SkipSpace(s, p) + 6 < r.value.0.start < r.value.0.end < r.value.1 <= |s|)
      && (r.Some? ==> forall k :: SkipSpace(s, p) + 6 <= k < r.value.0.start ==> IsSpace(s[k]))
      && (r.Some? ==> GetMethodCode.ValidMethodName(s[r.value.0.start .. r.value.0.end]))
      && (r.Some? ==> s[r.value.1 - 1] == '.' && forall k :: r.value.0.end <= k < r.value.1 - 1 ==> IsSpace(s[k]))
  {
    var r := HeaderAt(s, p);
    if r.Some? {
      var sp := r.value.0;
      assert forall k :: 0 <= k < sp.end - sp.start ==> s[sp.start .. sp.end][k] == s[sp.start + k];
    }
  }

  /** A header's match ends after it starts and its name is a valid method name. */
  lemma HeaderStep(s: string, q: nat)
    requires q <= |s| && HeaderAt(s, q).Some?
    ensures var m := HeaderAt(s, q).value;
      && q < m.1 <= |s| && m.0.start < m.0.end <= |s|
      && s[m.0.start .. m.0.end] != [] && GetMethodCode.ValidMethodName(s[m.0.start .. m.0.end])
  {
    HeaderAtFacts(s, q);
  }

  /** Whether a header starts at each position. */
  function HeaderStarts(s: string): nat -> bool
  {
    (i: nat) => i <= |s| && HeaderAt(s, i).Some?
  }

  /** `re.search` of the header pattern: the first header at or after `p`. */
  function HeaderSearch(s: string, p: nat): (r: Option<nat>)
    requires p <= |s|
    ensures r.Some? ==> p <= r.value <= |s| && HeaderAt(s, r.value).Some?
  {
    First(HeaderStarts(s), p, |s| + 1)
  }

  /** A header at `i` at or after `p` means the search finds one, at `i` or before. */
  lemma HeaderSearchLeftmost(s: string, p: nat, i: nat)
    requires p <= i <= |s| && HeaderAt(s, i).Some?
    ensures HeaderSearch(s, p).Some? && HeaderSearch(s, p).value <= i
  {
    FirstIsLeftmost(HeaderStarts(s), p, i, |s| + 1);
  }

  /**
   * `findall` of the header pattern from `p`: search for the first header,
   * report its name and go on searching after it. Names are reported in
   * text order, repeats included.
   */
  function Headers(s: string, p: nat): (r: seq<string>)
    requires p <= |s|
    ensures forall k :: 0 <= k < |r| ==> r[k] != [] && GetMethodCode.ValidMethodName(r[k])
    ensures |r| == 0 <==> HeaderSearch(s, p).None?
    decreases |s| - p
  {
    match HeaderSearch(s, p)
    case None => []
    case Some(q) => [HeaderName(s, q)] + Headers(s, HeaderEnd(s, q))
  }

  /**
   * The first header at or after `p` is reported first and the scan goes on
   * after its full stop; no header starts between `p` and it.
   */
  lemma FirstHeaderReported(s: string, p: nat)
    requires p <= |s| && HeaderSearch(s, p).Some?
    ensures var q := HeaderSearch(s, p).value; var m := HeaderAt(s, q).value;
      && Headers(s, p) == [s[m.0.start .. m.0.end]] + Headers(s, m.1)
      && forall i :: p <= i < q ==> HeaderAt(s, i).None?
  {
    var q := HeaderSearch(s, p).value;
    forall i | p <= i < q ensures HeaderAt(s, i).None? {
      if HeaderAt(s, i).Some? {
        HeaderSearchLeftmost(s, p, i);
      }
    }
  }

  /** No name is reported exactly when no header starts at or after `p`. */
  lemma NoHeadersIff(s: string, p: nat)
    requires p <= |s|
    ensures Headers(s, p) == [] <==> forall i :: p <= i <= |s| ==> HeaderAt(s, i).None?
  {
    if Headers(s, p) == [] {
      forall i | p <= i <= |s| ensures HeaderAt(s, i).None? {
        if HeaderAt(s, i).Some? {
          HeaderSearchLeftmost(s, p, i);
        }
      }
    } else {
      assert HeaderAt(s, HeaderSearch(s, p).value).Some?;
    }
  }

  /** The method name captured by the header at `q`. */
  function HeaderName(s: string, q: nat): (r: string)
    requires q <= |s| && HeaderAt(s, q).Some?
    ensures r != [] && GetMethodCode.ValidMethodName(r)
  {
    HeaderStep(s, q);
    var m := HeaderAt(s, q).value;
    s[m.0.start .. m.0.end]
  }

  /** Where the header at `q` ends, just after its full stop. */
  function HeaderEnd(s: string, q: nat): (e: nat)
    requires q <= |s| && HeaderAt(s, q).Some?
    ensures q < e <= |s|
  {
    HeaderStep(s, q);
    HeaderAt(s, q).value.1
  }

  /**
   * Declarations (`METHODS foo.`) and closing lines (`ENDMETHOD.`) are not
   * headers: after `method` a declaration has `s`, not whitespace, and a
   * closing line does not start with `method`.
   */
  lemma DeclarationsAndEndsAreNotHeaders(s: string, p: nat)
    requires p <= |s|
    requires MatchesCI(s, SkipSpace(s, p), "methods") || MatchesCI(s, SkipSpace(s, p), "endmethod")
    ensures HeaderAt(s, p).None?
  {
    var q := SkipSpace(s, p);
    if MatchesCI(s, q, "methods") {
      var kw := "methods";
      assert Lower(s[q + 6]) == kw[6];
      assert !IsSpace(s[q + 6]);
      assert SkipSpace(s, q + 6) == q + 6;
    } else {
      var kw := "endmethod";
      assert Lower(s[q]) == kw[0];
      NoMatchAt(s, q, "method");
    }
  }

  /** The text of the first implementation block, if there is one. */
  function ImplementationBlock(source: string): (r: Option<string>)
    ensures r.Some? <==> ClassSpanSearch(source, 0, "implementation").Some?
    ensures r.Some? ==> IsClassBlock(r.value)
  {
    var found := ClassSpanSearch(source, 0, "implementation");
    if found.None? then None
    else
      var sp := found.value;
      ClassSpanShape(source, sp.start, sp.end, "implementation");
      Some(source[sp.start .. sp.end])
  }

  datatype MethodListOutput = MethodListOutput(className: string, methods: seq<string>)

  /** The tool: the class name with its implemented methods, or the error raised. */
  function GetMethodList(repo: map<string, string>, className: string): (r: Result<MethodListOutput>)
    ensures ToolSource(repo, className).Err? ==> r == Err(ToolSource(repo, className).error)
    ensures ToolSource(repo, className).Ok? && ImplementationBlock(ToolSource(repo, className).value).None? ==>
      r == Err(ValueError("Class Implementation not found in source code for '" + className + "'."))
    ensures ToolSource(repo, className).Ok? && ImplementationBlock(ToolSource(repo, className).value).Some? ==>
      var block := ImplementationBlock(ToolSource(repo, className).value).value;
      if HeaderSearch(block, 0).None? then r == Err(ValueError("Methods not found in source code for '" + className + "'."))
      else r == Ok(MethodListOutput(className, LowerAll(Headers(block, 0))))
    ensures r.Ok? ==> r.value.className == className && r.value.methods != []
    ensures r.Ok? ==> forall k :: 0 <= k < |r.value.methods| ==>
      IsLowerStr(r.value.methods[k]) && r.value.methods[k] != [] && GetMethodCode.ValidMethodName(r.value.methods[k])
  {
    match ToolSource(repo, className)
    case Err(e) => Err(e)
    case Ok(source) =>
      match ImplementationBlock(source)
      case None => Err(ValueError("Class Implementation not found in source code for '" + className + "'."))
      case Some(block) =>
        var names := Headers(block, 0);
        if names == [] then Err(ValueError("Methods not found in source code for '" + className + "'."))
        else
          LowerNames(names);
          Ok(MethodListOutput(className, LowerAll(names)))
  }

  /** Lower-casing keeps names non-empty and made of `[\w~]`. */
  lemma LowerNames(names: seq<string>)
    requires forall k :: 0 <= k < |names| ==> names[k] != [] && GetMethodCode.ValidMethodName(names[k])
    ensures forall k :: 0 <= k < |names| ==> var n := LowerAll(names)[k];
      IsLowerStr(n) && n != [] && GetMethodCode.ValidMethodName(n)
  {
  }
}
