/**
 * `ClassDefTool._run`: the first `class <name> definition … endclass.` block
 * of a class's source, returned together with the whole source.
 */
module ClassDefTool {
  import opened Text
  import opened Errors
  import opened SqlScan
  import opened ClassSpans
  import opened ClassTool

  /** The message raised when the source has no definition block. */
  function NoDefinitionMessage(className: string): string
  {
    "Class definition not found in source code for '" + className + "'."
  }

  /** The tool: the definition block and the unchanged source, or the error raised. */
  function ClassDefTool(repo: map<string, string>, className: string): (r: Result<(string, string)>)
    ensures ToolSource(repo, className).Err? ==> r == Err(ToolSource(repo, className).error)
    ensures ToolSource(repo, className).Ok? && ClassSpanSearch(ToolSource(repo, className).value, 0, "definition").None? ==>
      r == Err(ValueError(NoDefinitionMessage(className)))
    ensures ToolSource(repo, className).Ok? && ClassSpanSearch(ToolSource(repo, className).value, 0, "definition").Some? ==> r.Ok?
    ensures r.Ok? ==> ToolSource(repo, className) == Ok(r.value.1)
    ensures r.Ok? ==> IsClassBlock(r.value.0)
    ensures r.Ok? ==> exists sp :: ClassSpanSearch(r.value.1, 0, "definition") == Some(sp) && r.value.0 == r.value.1[sp.start .. sp.end]
  {
    match ToolSource(repo, className)
    case Err(e) => Err(e)
    case Ok(source) =>
      match ClassSpanSearch(source, 0, "definition")
      case None => Err(ValueError(NoDefinitionMessage(className)))
      case Some(sp) =>
        ClassSpanShape(source, sp.start, sp.end, "definition");
        Ok((source[sp.start .. sp.end], source))
  }

  /**
   * The block returned is the leftmost one: no definition block starts
   * before it (a block at any `i` means the returned one starts at `i` or
   * earlier), and the block stops at the first `endclass.` after its header.
   */
  lemma ClassDefinitionIsFirst(repo: map<string, string>, className: string, i: nat)
    requires ClassDefTool(repo, className).Ok?
    ensures var source := ClassDefTool(repo, className).value.1;
      var sp := ClassSpanSearch(source, 0, "definition").value;
      ClassSpanAt(source, sp.start, "definition") == Some(sp.end)
      && NoMatchIn(source, ClassHeaderAt(source, sp.start, "definition").value.1, sp.end - 9, "endclass.")
      && (i <= |source| && ClassSpanAt(source, i, "definition").Some? ==> sp.start <= i)
  {
    var source := ClassDefTool(repo, className).value.1;
    var sp := ClassSpanSearch(source, 0, "definition").value;
    ClassSpanAtFacts(source, sp.start, "definition");
    if i <= |source| && ClassSpanAt(source, i, "definition").Some? {
      ClassSpanSearchLeftmost(source, 0, i, "definition");
    }
  }
}
